/** The read-only commands both front ends share: the case-insensitive search with its
    fuzzy fallback, and the listing sorted by rating. */
module Queries {
  import opened Options
  import opened Text
  import opened Catalog

  /** The entries whose lower-cased title contains `q`, in collection order. */
  function Matching(es: Entries, q: string): (r: Entries)
    ensures forall e :: e in r <==> e in es && Contains(Lower(e.title), q)
    ensures |r| <= |es|
  {
    if es == [] then
      []
    else
      var init, last := es[..|es| - 1], es[|es| - 1];
      assert es == init + [last];
      Matching(init, q) + (if Contains(Lower(last.title), q) then [last] else [])
  }

  /** Filtering distributes over concatenation, so the hits keep the collection's order. */
  lemma {:induction false} MatchingAppend(a: Entries, b: Entries, q: string)
    ensures Matching(a + b, q) == Matching(a, q) + Matching(b, q)
    decreases |b|
  {
    if b == [] {
      assert a + b == a;
    } else {
      var init, last := b[..|b| - 1], b[|b| - 1];
      assert (a + b)[..|a + b| - 1] == a + init;
      assert (a + b)[|a + b| - 1] == last;
      MatchingAppend(a, init, q);
    }
  }

  /** One candidate of `process.extract`: a title and its similarity score (0 to 100). */
  datatype Match = Match(title: Title, score: int)

  /** What `process.extract(query, titles, limit=2)` can return: at most two of the titles. */
  predicate FromExtract(es: Entries, matches: seq<Match>) {
    |matches| <= 2 && forall k :: 0 <= k < |matches| ==> matches[k].title in Titles(es)
  }

  /** The score from which the best candidate counts as the movie itself. */
  const ExactScore: int := 96

  /** What the search prints: the substring hits, a single near-exact match,
      "did you mean" suggestions, or nothing. */
  datatype Report =
    | Hits(found: Entries)
    | Exact(title: Title, movie: Movie)
    | DidYouMean(query: string, suggestions: Entries)
    | Silent

  /** The records of the suggested titles, in the order the matcher ranked them. */
  function Suggest(es: Entries, matches: seq<Match>): (r: Entries)
    requires FromExtract(es, matches)
    ensures |r| == |matches|
    ensures forall k :: 0 <= k < |r| ==> r[k].title == matches[k].title && Lookup(es, r[k].title) == Some(r[k].movie)
  {
    if matches == [] then
      []
    else
      [Entry(matches[0].title, Lookup(es, matches[0].title).value)] + Suggest(es, matches[1..])
  }

  /** The search command: lower-case the query, collect the titles containing it; only
      when there are none, fall back to the fuzzy candidates, reporting the best alone
      when it scores at least 96 and every candidate otherwise. */
  method SearchCatalog(movies: Entries, query: string, matches: seq<Match>) returns (report: Report)
    requires FromExtract(movies, matches)
    ensures report.Hits? <==> exists e :: e in movies && Contains(Lower(e.title), Lower(query))
    ensures report.Hits? ==> report.found == Matching(movies, Lower(query))
    ensures report.Silent? <==> !report.Hits? && matches == []
    ensures report.Exact? <==> !report.Hits? && matches != [] && matches[0].score >= ExactScore
    ensures report.Exact? ==> report.title == matches[0].title && Lookup(movies, report.title) == Some(report.movie)
    ensures report.DidYouMean? ==> report.query == Lower(query) && report.suggestions == Suggest(movies, matches)
  {
    var q := Lower(query);
    var found: Entries := [];
    var i := 0;
    while i < |movies|
      invariant i <= |movies|
      invariant found == Matching(movies[..i], q)
    {
      assert movies[..i + 1][..i] == movies[..i];
      if Contains(Lower(movies[i].title), q) {
        found := found + [movies[i]];
      }
      i := i + 1;
    }
    assert movies[..|movies|] == movies;
    if found != [] {
      assert found[0] in found;
      report := Hits(found);
    } else if matches != [] {
      if matches[0].score >= ExactScore {
        report := Exact(matches[0].title, Lookup(movies, matches[0].title).value);
      } else {
        report := DidYouMean(q, Suggest(movies, matches));
      }
    } else {
      report := Silent;
    }
  }

  /** Ratings never increase along the sequence. */
  predicate NonIncreasing(es: Entries) {
    forall i, j :: 0 <= i < j < |es| ==> es[i].movie.rating >= es[j].movie.rating
  }

  /** The entries rated exactly x, in order. */
  function RatedAt(es: Entries, x: real): Entries {
    if es == [] then []
    else (if es[0].movie.rating == x then [es[0]] else []) + RatedAt(es[1..], x)
  }

  /** Places e after every entry rated strictly higher, hence before those it ties with. */
  function Insert(e: Entry, es: Entries): (r: Entries)
    ensures multiset(r) == multiset(es) + multiset{e}
  {
    if es == [] || es[0].movie.rating <= e.movie.rating then
      [e] + es
    else
      assert es == [es[0]] + es[1..];
      [es[0]] + Insert(e, es[1..])
  }

  lemma {:induction false} InsertSorted(e: Entry, es: Entries)
    requires NonIncreasing(es)
    ensures NonIncreasing(Insert(e, es))
  {
    if es == [] || es[0].movie.rating <= e.movie.rating {
      ConsSorted(e, es);
    } else {
      var rest := Insert(e, es[1..]);
      assert NonIncreasing(es[1..]) by {
        forall i, j | 0 <= i < j < |es| - 1
          ensures es[1..][i].movie.rating >= es[1..][j].movie.rating
        {
          assert es[1..][i] == es[i + 1] && es[1..][j] == es[j + 1];
        }
      }
      InsertSorted(e, es[1..]);
      assert rest[0] == if es[1..] == [] || es[1].movie.rating <= e.movie.rating then e else es[1];
      ConsSorted(es[0], rest);
    }
  }

  /** An entry rated at least as high as the head of a sorted sequence can go in front of it. */
  lemma ConsSorted(x: Entry, rest: Entries)
    requires NonIncreasing(rest)
    requires rest != [] ==> rest[0].movie.rating <= x.movie.rating
    ensures NonIncreasing([x] + rest)
  {
    var r := [x] + rest;
    forall i, j | 0 <= i < j < |r|
      ensures r[i].movie.rating >= r[j].movie.rating
    {
      assert r[j] == rest[j - 1];
      if i == 0 {
        assert rest[0].movie.rating >= rest[j - 1].movie.rating;
      } else {
        assert r[i] == rest[i - 1];
      }
    }
  }

  /** `sorted(movies.items(), key=rating, reverse=True)`: highest rating first; Python's
      sort is stable, also in reverse, so ties keep collection order. */
  function ByRating(es: Entries): (r: Entries)
    ensures NonIncreasing(r)
    ensures multiset(r) == multiset(es)
  {
    if es == [] then
      []
    else
      assert es == [es[0]] + es[1..];
      InsertSorted(es[0], ByRating(es[1..]));
      Insert(es[0], ByRating(es[1..]))
  }

  lemma {:induction false} InsertRatedAt(e: Entry, es: Entries, x: real)
    ensures RatedAt(Insert(e, es), x) == (if e.movie.rating == x then [e] else []) + RatedAt(es, x)
  {
    if es == [] || es[0].movie.rating <= e.movie.rating {
      assert ([e] + es)[1..] == es;
    } else {
      var rest := Insert(e, es[1..]);
      assert ([es[0]] + rest)[1..] == rest;
      InsertRatedAt(e, es[1..], x);
    }
  }

  /** Stability: among equally rated movies the ranking keeps collection order. */
  lemma {:induction false} ByRatingStable(es: Entries, x: real)
    ensures RatedAt(ByRating(es), x) == RatedAt(es, x)
  {
    if es != [] {
      ByRatingStable(es[1..], x);
      InsertRatedAt(es[0], ByRating(es[1..]), x);
    }
  }
}
