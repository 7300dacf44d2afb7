/** `MovieApp`, the command layer written against the storage interface: the guards
    that decide whether storage is called, the re-prompting update, the search, the
    ranking and the static web page. */
module MovieApp {
  import opened Options
  import opened Text
  import opened Numbers
  import opened Catalog
  import opened StorageInterface
  import opened Queries
  import opened Prompts

  /** The fields of OMDb's JSON answer that the add command reads; None is a missing key. */
  datatype OmdbBody = OmdbBody(
    response: Option<string>,
    title: Option<string>,
    year: Option<Scalar>,
    rating: Option<Scalar>,
    poster: Option<string>)
  {
    /** `movie_data.get("Title", "Unknown Title")`. */
    function TitleOrDefault(): string {
      match title case Some(t) => t case None => "Unknown Title"
    }

    /** `movie_data.get("Year", 0)`, before `int()`. */
    function YearOrDefault(): Scalar {
      match year case Some(y) => y case None => IntNum(0)
    }

    /** `movie_data.get("imdbRating", 0)`, before `float()`. */
    function RatingOrDefault(): Scalar {
      match rating case Some(x) => x case None => IntNum(0)
    }

    /** `movie_data.get("Poster", "")`. */
    function PosterOrDefault(): string {
      match poster case Some(p) => p case None => ""
    }
  }

  /** How the OMDb request for a title ended. `body` is None when the answer is not JSON. */
  datatype OmdbReply =
    | ConnectionFailed
    | RequestFailed
    | HttpReply(status: int, body: Option<OmdbBody>)

  /** How the add command ends; only `Submitted` calls storage, with the values it holds. */
  datatype AddOutcome =
    | EmptyTitle
    | DuplicateTitle
    | NoConnection
    | BadStatus(status: int)
    | NotInOmdb
    | SomethingWrong
    | Submitted(title: Title, year: int, rating: real, poster: string)

  /** What the add command makes of the OMDb reply: an HTTP status other than 200, a
      "Response": "False" answer, a non-JSON body or a year or rating that `int()` /
      `float()` reject all abort it; otherwise the values to store, with "Unknown Title",
      0, 0 and "" for missing keys. */
  function Enrich(reply: OmdbReply): (r: AddOutcome)
    ensures r != EmptyTitle && r != DuplicateTitle
    ensures r == NoConnection <==> reply.ConnectionFailed?
    ensures r.BadStatus? <==> reply.HttpReply? && reply.status != 200
    ensures r.BadStatus? ==> r.status == reply.status
    ensures r == NotInOmdb <==>
      reply.HttpReply? && reply.status == 200 && reply.body.Some? && reply.body.value.response == Some("False")
    ensures r.Submitted? <==>
      && reply.HttpReply? && reply.status == 200 && reply.body.Some?
      && reply.body.value.response != Some("False")
      && IntOf(reply.body.value.YearOrDefault()).Some?
      && FloatOf(reply.body.value.RatingOrDefault()).Some?
    ensures r.Submitted? ==>
      && r.title == reply.body.value.TitleOrDefault()
      && IntOf(reply.body.value.YearOrDefault()) == Some(r.year)
      && FloatOf(reply.body.value.RatingOrDefault()) == Some(r.rating)
      && r.poster == reply.body.value.PosterOrDefault()
  {
    match reply
    case ConnectionFailed => NoConnection
    case RequestFailed => SomethingWrong
    case HttpReply(status, body) =>
      if status != 200 then
        BadStatus(status)
      else if body.None? then
        SomethingWrong
      else if body.value.response == Some("False") then
        NotInOmdb
      else
        var b := body.value;
        var year := IntOf(b.YearOrDefault());
        var rating := FloatOf(b.RatingOrDefault());
        if year.None? || rating.None? then SomethingWrong
        else Submitted(b.TitleOrDefault(), year.value, rating.value, b.PosterOrDefault())
  }

  /** The token of the page template that the movie grid replaces. */
  const Placeholder: string := "__TEMPLATE_MOVIE_GRID__"

  /** The poster as the f-string renders `details.get("poster")`: a missing poster shows as "None". */
  function PosterText(poster: Option<string>): string {
    match poster
    case Some(p) => p
    case None => "None"
  }

  const FragmentHead: string :=
    "\n            <li>\n                <div class=\"movie\">\n"
    + "                    <img class=\"movie-poster\" src=\""
  const AfterPoster: string := "\" alt=\"Movie Poster\">\n                    <div class=\"movie-title\">"
  const AfterTitle: string := "</div>\n                    <div class=\"movie-year\">"
  const FragmentTail: string := "</div>\n                </div>\n            </li>\n            "

  /** The markup for one movie: its poster, title and year. */
  function Fragment(e: Entry): string {
    FragmentHead + PosterText(e.movie.poster) + AfterPoster + e.title + AfterTitle
    + ShowInt(e.movie.year) + FragmentTail
  }

  /** Each fragment carries that movie's poster, title and year. */
  lemma FragmentCarries(e: Entry)
    ensures Contains(Fragment(e), PosterText(e.movie.poster))
    ensures Contains(Fragment(e), e.title)
    ensures Contains(Fragment(e), ShowInt(e.movie.year))
  {
    FieldsCarried(FragmentHead, PosterText(e.movie.poster), AfterPoster, e.title, AfterTitle,
      ShowInt(e.movie.year), FragmentTail);
  }

  /** Text laid out as fixed pieces around three fields contains each field. */
  lemma FieldsCarried(a: string, p: string, b: string, t: string, c: string, y: string, d: string)
    ensures Contains(a + p + b + t + c + y + d, p)
    ensures Contains(a + p + b + t + c + y + d, t)
    ensures Contains(a + p + b + t + c + y + d, y)
  {
    var f := a + p + b + t + c + y + d;
    var i := |a|;
    assert f[i..i + |p|] == p;
    assert OccursAt(f, p, i);
    var j := i + |p| + |b|;
    assert f[j..j + |t|] == t;
    assert OccursAt(f, t, j);
    var k := j + |t| + |c|;
    assert f[k..k + |y|] == y;
    assert OccursAt(f, y, k);
  }

  /** The strings `f` renders for the entries, joined end to end in collection order. */
  function Joined(f: Entry -> string, es: Entries): string {
    if es == [] then "" else Joined(f, es[..|es| - 1]) + f(es[|es| - 1])
  }

  /** Rendering distributes over concatenation of collections. */
  lemma {:induction false} JoinedAppend(f: Entry -> string, a: Entries, b: Entries)
    ensures Joined(f, a + b) == Joined(f, a) + Joined(f, b)
    decreases |b|
  {
    if b == [] {
      assert a + b == a;
    } else {
      var ab, init := a + b, b[..|b| - 1];
      assert ab[..|ab| - 1] == a + init;
      assert ab[|ab| - 1] == b[|b| - 1];
      JoinedAppend(f, a, init);
      assert b[..|b| - 1] == init;
    }
  }

  /** The k-th entry's rendering sits between the renderings of the entries before it
      and those after it. */
  lemma JoinedAt(f: Entry -> string, es: Entries, k: nat)
    requires k < |es|
    ensures Joined(f, es) == Joined(f, es[..k]) + f(es[k]) + Joined(f, es[k + 1..])
  {
    var pre, post := es[..k], es[k + 1..];
    assert es == (pre + [es[k]]) + post;
    JoinedAppend(f, pre + [es[k]], post);
    JoinedAppend(f, pre, [es[k]]);
    JoinedOne(f, es[k]);
  }

  lemma JoinedOne(f: Entry -> string, e: Entry)
    ensures Joined(f, [e]) == f(e)
  {
    assert [e][..0] == [];
  }

  /** The grid: one fragment per movie, joined. */
  function Grid(es: Entries): string {
    Joined(Fragment, es)
  }

  /** The grid shows the poster, title and year of every movie. */
  lemma GridShowsEveryMovie(es: Entries, k: nat)
    requires k < |es|
    ensures Contains(Grid(es), es[k].title)
    ensures Contains(Grid(es), ShowInt(es[k].movie.year))
    ensures Contains(Grid(es), PosterText(es[k].movie.poster))
  {
    JoinedAt(Fragment, es, k);
    FragmentCarries(es[k]);
    var before, f, after := Grid(es[..k]), Fragment(es[k]), Grid(es[k + 1..]);
    ContainsWithin(before, f, after, es[k].title);
    ContainsWithin(before, f, after, ShowInt(es[k].movie.year));
    ContainsWithin(before, f, after, PosterText(es[k].movie.poster));
  }

  /** In a template whose one placeholder sits between `pre` and `post`, the generated
      page is the template with the grid in the placeholder's place, so it shows the
      poster, title and year of every movie. */
  lemma PageShowsEveryMovie(pre: string, post: string, es: Entries, k: nat)
    requires k < |es|
    requires forall i: nat :: i < |pre| ==> !OccursAt(pre + Placeholder + post, Placeholder, i)
    requires forall i: nat :: !OccursAt(post, Placeholder, i)
    ensures ReplaceAll(pre + Placeholder + post, Placeholder, Grid(es)) == pre + Grid(es) + post
    ensures var page := ReplaceAll(pre + Placeholder + post, Placeholder, Grid(es));
      && Contains(page, es[k].title)
      && Contains(page, ShowInt(es[k].movie.year))
      && Contains(page, PosterText(es[k].movie.poster))
  {
    var g := Grid(es);
    ReplaceSingle(pre, Placeholder, post, g);
    GridShowsEveryMovie(es, k);
    ContainsWithin(pre, g, post, es[k].title);
    ContainsWithin(pre, g, post, ShowInt(es[k].movie.year));
    ContainsWithin(pre, g, post, PosterText(es[k].movie.poster));
  }

  /** The loop of `_generate_website` that appends one fragment per movie. */
  method RenderGrid(movies: Entries) returns (grid: string)
    ensures grid == Grid(movies)
  {
    grid := "";
    var i := 0;
    while i < |movies|
      invariant i <= |movies|
      invariant grid == Grid(movies[..i])
    {
      assert movies[..i + 1][..i] == movies[..i];
      grid := grid + Fragment(movies[i]);
      i := i + 1;
    }
    assert movies[..|movies|] == movies;
  }

  class MovieApp {
    const storage: Storage

    constructor (storage: Storage)
      ensures this.storage == storage
    {
      this.storage := storage;
    }

    /** `_command_add_new_movie`: rejects a blank title, then a title already listed,
        before any lookup or storage call; then asks OMDb and hands what it returns to
        `storage.add_movie`. */
    method AddNewMovie(userTitle: string, reply: OmdbReply) returns (outcome: AddOutcome)
      requires storage.Valid()
      modifies storage.Obj()
      ensures storage.Valid()
      ensures outcome == EmptyTitle <==> IsBlank(userTitle)
      ensures outcome == DuplicateTitle <==> !IsBlank(userTitle) && userTitle in Titles(old(storage.Movies()))
      ensures !IsBlank(userTitle) && userTitle !in Titles(old(storage.Movies())) ==> outcome == Enrich(reply)
      ensures outcome.Submitted? ==>
        storage.Movies() == storage.AfterAdd(old(storage.Movies()), outcome.title, outcome.year, outcome.rating, outcome.poster)
      ensures !outcome.Submitted? ==> unchanged(storage.Obj())
    {
      var movies := storage.ListMovies();
      assert movies == old(storage.Movies());
      if IsBlank(userTitle) {
        return EmptyTitle;
      }
      if userTitle in Titles(movies) {
        return DuplicateTitle;
      }
      outcome := Enrich(reply);
      assert outcome != EmptyTitle && outcome != DuplicateTitle;
      if outcome.Submitted? {
        storage.AddMovie(outcome.title, outcome.year, outcome.rating, outcome.poster);
      }
    }

    /** `_command_delete_movie`: calls `storage.delete_movie` only for a listed title. */
    method DeleteMovie(title: Title) returns (deleted: bool)
      requires storage.Valid()
      modifies storage.Obj()
      ensures storage.Valid()
      ensures deleted <==> title in Titles(old(storage.Movies()))
      ensures deleted ==> storage.Movies() == Remove(old(storage.Movies()), title)
      ensures !deleted ==> unchanged(storage.Obj())
    {
      var movies := storage.ListMovies();
      assert movies == old(storage.Movies());
      if title in Titles(movies) {
        storage.DeleteMovie(title);
        deleted := true;
      } else {
        deleted := false;
      }
    }

    /** `_command_update_movie`: for a listed title, re-prompts until a rating in [0, 10]
        parses, then calls `storage.update_movie` once with it; an unknown title calls
        nothing and reads no rating. */
    method UpdateMovie(title: Title, ratings: seq<string>) returns (outcome: UpdateOutcome)
      requires storage.Valid()
      modifies storage.Obj()
      ensures storage.Valid()
      ensures outcome == NoSuchMovie <==> title !in Titles(old(storage.Movies()))
      ensures outcome.Updated? ==>
        && outcome.at < |ratings|
        && ParseReal(ratings[outcome.at]) == Some(outcome.rating) && RatingInRange(outcome.rating)
        && (forall j :: 0 <= j < outcome.at ==> !RatingAccepted(ratings[j]))
        && storage.Movies() == SetRating(old(storage.Movies()), title, outcome.rating)
      ensures outcome == InputExhausted ==> forall j :: 0 <= j < |ratings| ==> !RatingAccepted(ratings[j])
      ensures !outcome.Updated? ==> unchanged(storage.Obj())
    {
      var movies := storage.ListMovies();
      assert movies == old(storage.Movies());
      if title in Titles(movies) {
        var rating, at := PromptRating(ratings, 0);
        assert storage.Movies() == movies;
        if rating.Some? {
          StoreRating(title, rating.value);
          assert storage.Movies() == SetRating(movies, title, rating.value);
          outcome := Updated(rating.value, at);
        } else {
          outcome := InputExhausted;
        }
      } else {
        outcome := NoSuchMovie;
      }
    }

    /** The `storage.update_movie` call of the update command, made only with a rating in [0, 10]. */
    method StoreRating(title: Title, rating: real)
      requires storage.Valid() && RatingInRange(rating)
      modifies storage.Obj()
      ensures storage.Valid()
      ensures storage.Movies() == SetRating(old(storage.Movies()), title, rating)
    {
      storage.AfterUpdateInRange(storage.Movies(), title, rating);
      storage.UpdateMovie(title, rating);
    }

    /** `_command_search_movie`, with the fuzzy matcher's candidates given. */
    method SearchMovie(query: string, matches: seq<Match>) returns (report: Report)
      requires storage.Valid() && FromExtract(storage.Movies(), matches)
      ensures report.Hits? <==> exists e :: e in storage.Movies() && Contains(Lower(e.title), Lower(query))
      ensures report.Hits? ==> report.found == Matching(storage.Movies(), Lower(query))
      ensures report.Silent? <==> !report.Hits? && matches == []
      ensures report.Exact? <==> !report.Hits? && matches != [] && matches[0].score >= ExactScore
      ensures report.Exact? ==> report.title == matches[0].title && Lookup(storage.Movies(), report.title) == Some(report.movie)
      ensures report.DidYouMean? ==> report.query == Lower(query) && report.suggestions == Suggest(storage.Movies(), matches)
    {
      var movies := storage.ListMovies();
      report := SearchCatalog(movies, query, matches);
    }

    /** `_command_movie_by_rating`: every movie once, highest rating first, ties in collection order. */
    method MovieByRating() returns (ranked: Entries)
      requires storage.Valid()
      ensures NonIncreasing(ranked)
      ensures multiset(ranked) == multiset(storage.Movies())
      ensures forall x :: RatedAt(ranked, x) == RatedAt(storage.Movies(), x)
    {
      var movies := storage.ListMovies();
      ranked := ByRating(movies);
      forall x
        ensures RatedAt(ranked, x) == RatedAt(movies, x)
      {
        ByRatingStable(movies, x);
      }
    }

    /** `_generate_website`: concatenates one fragment per movie and substitutes the
        grid for the placeholder in the template; the page is returned rather than written. */
    method GenerateWebsite(template: string) returns (html: string)
      requires storage.Valid()
      ensures html == ReplaceAll(template, Placeholder, Grid(storage.Movies()))
    {
      var movies := storage.ListMovies();
      assert movies == storage.Movies();
      var grid := RenderGrid(movies);
      assert grid == Grid(storage.Movies());
      html := ReplaceAll(template, Placeholder, grid);
    }
  }
}
