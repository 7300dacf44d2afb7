/** The movie collection: a Python dict from title to record, kept as its items in
    insertion order (listing, search, ranking and the web page all follow that order),
    together with the dict operations the storage layers apply to it. */
module Catalog {
  import opened Options

  type Title = string

  /** One record. `poster` is None when the backend did not store one. */
  datatype Movie = Movie(rating: real, year: int, poster: Option<string>)

  datatype Entry = Entry(title: Title, movie: Movie)

  /** The items of the dict, in insertion order. */
  type Entries = seq<Entry>

  /** The accepted year range, [1900, 2025]. */
  predicate YearInRange(y: int) {
    1900 <= y <= 2025
  }

  /** The accepted rating range, [0, 10]. */
  predicate RatingInRange(r: real) {
    0.0 <= r <= 10.0
  }

  /** The keys of the dict, in order. */
  function Titles(es: Entries): (ts: seq<Title>)
    ensures |ts| == |es|
    ensures forall i :: 0 <= i < |es| ==> ts[i] == es[i].title
  {
    seq(|es|, i requires 0 <= i < |es| => es[i].title)
  }

  /** Dict keys are distinct. */
  predicate Unique(es: Entries) {
    forall i, j :: 0 <= i < j < |es| ==> es[i].title != es[j].title
  }

  /** Python's `d.get(t)`. */
  function Lookup(es: Entries, t: Title): (r: Option<Movie>)
    ensures r.None? <==> t !in Titles(es)
    ensures r.Some? ==> Entry(t, r.value) in es
  {
    if es == [] then None
    else if es[0].title == t then Some(es[0].movie)
    else
      assert Titles(es) == [es[0].title] + Titles(es[1..]);
      Lookup(es[1..], t)
  }

  lemma ConsTitles(e: Entry, es: Entries)
    ensures Titles([e] + es) == [e.title] + Titles(es)
  {
  }

  lemma ConsLookup(e: Entry, es: Entries, u: Title)
    ensures Lookup([e] + es, u) == if e.title == u then Some(e.movie) else Lookup(es, u)
  {
    assert ([e] + es)[1..] == es;
  }

  lemma ConsUnique(e: Entry, es: Entries)
    ensures Unique([e] + es) <==> e.title !in Titles(es) && Unique(es)
  {
    var r := [e] + es;
    if e.title !in Titles(es) && Unique(es) {
      forall i, j | 0 <= i < j < |r|
        ensures r[i].title != r[j].title
      {
        if i == 0 {
          assert r[j].title == Titles(es)[j - 1];
        } else {
          assert r[i] == es[i - 1] && r[j] == es[j - 1];
        }
      }
    }
    if Unique(r) {
      forall k | 0 <= k < |es|
        ensures es[k].title != e.title
      {
        assert r[0] == e && r[k + 1] == es[k];
      }
      forall i, j | 0 <= i < j < |es|
        ensures es[i].title != es[j].title
      {
        assert es[i] == r[i + 1] && es[j] == r[j + 1];
      }
    }
  }

  /** Dropping the first entry keeps keys distinct, and the first key does not recur. */
  lemma UniqueTail(es: Entries)
    requires Unique(es) && es != []
    ensures Unique(es[1..]) && es[0].title !in Titles(es[1..])
  {
    var tail := es[1..];
    forall a, b | 0 <= a < b < |tail|
      ensures tail[a].title != tail[b].title
    {
      assert tail[a] == es[a + 1] && tail[b] == es[b + 1];
    }
    forall k | 0 <= k < |tail|
      ensures Titles(tail)[k] != es[0].title
    {
      assert tail[k] == es[k + 1];
    }
  }

  /** With distinct keys, looking up the title at position i finds that entry's record. */
  lemma {:induction false} LookupAt(es: Entries, i: nat)
    requires Unique(es) && i < |es|
    ensures Lookup(es, es[i].title) == Some(es[i].movie)
  {
    if i > 0 {
      assert es == [es[0]] + es[1..];
      ConsUnique(es[0], es[1..]);
      ConsTitles(es[0], es[1..]);
      LookupAt(es[1..], i - 1);
      assert es[0].title != es[i].title;
    }
  }

  /** Python's `d[t] = m` (or `d.update({t: m})`): the record of an existing key is
      replaced where it stands; a new key goes at the end. */
  function Put(es: Entries, t: Title, m: Movie): (r: Entries)
    ensures Titles(r) == if t in Titles(es) then Titles(es) else Titles(es) + [t]
  {
    if es == [] then
      [Entry(t, m)]
    else if es[0].title == t then
      var e, tail := es[0], es[1..];
      assert es == [e] + tail;
      ConsTitles(e, tail);
      ConsTitles(Entry(t, m), tail);
      [Entry(t, m)] + tail
    else
      var e, tail := es[0], es[1..];
      assert es == [e] + tail;
      var rest := Put(tail, t, m);
      var r := [e] + rest;
      ConsTitles(e, tail);
      ConsTitles(e, rest);
      assert t in Titles(es) <==> t in Titles(tail);
      assert t !in Titles(tail) ==> Titles(r) == Titles(es) + [t] by {
        if t !in Titles(tail) {
          assert [e.title] + (Titles(tail) + [t]) == ([e.title] + Titles(tail)) + [t];
        }
      }
      r
  }

  lemma {:induction false} PutLookup(es: Entries, t: Title, m: Movie, u: Title)
    ensures Lookup(Put(es, t, m), u) == if u == t then Some(m) else Lookup(es, u)
  {
    if es != [] {
      var e, tail := es[0], es[1..];
      assert es == [e] + tail;
      PutCons(e, tail, t, m);
      ConsLookup(e, tail, u);
      if e.title == t {
        ConsLookup(Entry(t, m), tail, u);
      } else {
        PutLookup(tail, t, m, u);
        ConsLookup(e, Put(tail, t, m), u);
      }
    }
  }

  /** Python's `del d[t]` for a key t; nothing changes when t is absent. */
  function Remove(es: Entries, t: Title): (r: Entries)
    ensures Titles(r) == RemoveTitle(Titles(es), t)
    ensures t !in Titles(es) ==> r == es
  {
    if es == [] then
      []
    else
      var e, tail := es[0], es[1..];
      assert es == [e] + tail;
      ConsTitles(e, tail);
      var rest := Remove(tail, t);
      var r := if e.title == t then rest else [e] + rest;
      ConsTitles(e, rest);
      r
  }

  /** After `del d[t]`, t looks up to nothing and every other key to what it did before. */
  lemma {:induction false} RemoveLookup(es: Entries, t: Title, u: Title)
    ensures Lookup(Remove(es, t), u) == if u == t then None else Lookup(es, u)
  {
    if es != [] {
      var e, tail := es[0], es[1..];
      assert es == [e] + tail;
      RemoveCons(e, tail, t);
      ConsLookup(e, tail, u);
      RemoveLookup(tail, t, u);
      if e.title != t {
        ConsLookup(e, Remove(tail, t), u);
      }
    }
  }

  /** The key sequence without t. */
  function RemoveTitle(ts: seq<Title>, t: Title): (r: seq<Title>)
    ensures forall u :: u in r <==> u in ts && u != t
  {
    if ts == [] then []
    else if ts[0] == t then RemoveTitle(ts[1..], t)
    else [ts[0]] + RemoveTitle(ts[1..], t)
  }

  /** A looked-up record with its rating replaced by x. */
  function Rerated(m: Option<Movie>, x: real): Option<Movie> {
    match m
    case Some(movie) => Some(movie.(rating := x))
    case None => None
  }

  /** Python's `d[t]["rating"] = x` for a key t: only that record's rating changes;
      nothing changes when t is absent. */
  function SetRating(es: Entries, t: Title, x: real): (r: Entries)
    ensures Titles(r) == Titles(es)
  {
    if es == [] then
      []
    else
      var e, tail := es[0], es[1..];
      assert es == [e] + tail;
      ConsTitles(e, tail);
      var head := if e.title == t then Entry(t, e.movie.(rating := x)) else e;
      var rest := SetRating(tail, t, x);
      var r := [head] + rest;
      ConsTitles(head, rest);
      r
  }

  /** After `d[t]["rating"] = x`, t looks up to its record with rating x, and every other
      key to what it did before. */
  lemma {:induction false} SetRatingLookup(es: Entries, t: Title, x: real, u: Title)
    ensures Lookup(SetRating(es, t, x), u) == if u == t then Rerated(Lookup(es, u), x) else Lookup(es, u)
  {
    if es != [] {
      var e, tail := es[0], es[1..];
      assert es == [e] + tail;
      var head := if e.title == t then Entry(t, e.movie.(rating := x)) else e;
      SetRatingCons(e, tail, t, x);
      ConsLookup(e, tail, u);
      SetRatingLookup(tail, t, x, u);
      ConsLookup(head, SetRating(tail, t, x), u);
    }
  }

  lemma PutCons(e: Entry, tail: Entries, t: Title, m: Movie)
    ensures Put([e] + tail, t, m) == if e.title == t then [Entry(t, m)] + tail else [e] + Put(tail, t, m)
  {
    assert ([e] + tail)[1..] == tail;
  }

  lemma RemoveCons(e: Entry, tail: Entries, t: Title)
    ensures Remove([e] + tail, t) == if e.title == t then Remove(tail, t) else [e] + Remove(tail, t)
  {
    assert ([e] + tail)[1..] == tail;
  }

  lemma SetRatingCons(e: Entry, tail: Entries, t: Title, x: real)
    ensures SetRating([e] + tail, t, x) == [if e.title == t then Entry(t, e.movie.(rating := x)) else e] + SetRating(tail, t, x)
  {
    assert ([e] + tail)[1..] == tail;
  }

  /** Two collections with the same title list are either both keyed uniquely or neither is. */
  lemma SameTitlesUnique(a: Entries, b: Entries)
    requires Titles(a) == Titles(b) && Unique(a)
    ensures Unique(b)
  {
    forall i, j | 0 <= i < j < |b|
      ensures b[i].title != b[j].title
    {
      assert Titles(a)[i] != Titles(a)[j];
    }
  }

  /** Titles stay keys: none of the three updates introduces a second entry for a title. */
  lemma {:induction false} PutUnique(es: Entries, t: Title, m: Movie)
    requires Unique(es)
    ensures Unique(Put(es, t, m))
  {
    if t in Titles(es) {
      SameTitlesUnique(es, Put(es, t, m));
    } else {
      PutNewAppends(es, t, m);
      var r := es + [Entry(t, m)];
      forall i, j | 0 <= i < j < |r|
        ensures r[i].title != r[j].title
      {
        if j == |es| {
          assert r[i].title == Titles(es)[i];
        } else {
          assert r[i] == es[i] && r[j] == es[j];
        }
      }
    }
  }

  lemma {:induction false} RemoveUnique(es: Entries, t: Title)
    requires Unique(es)
    ensures Unique(Remove(es, t))
  {
    if es != [] {
      var e, tail := es[0], es[1..];
      assert es == [e] + tail;
      UniqueTail(es);
      RemoveCons(e, tail, t);
      RemoveUnique(tail, t);
      if e.title != t {
        assert e.title !in Titles(Remove(tail, t));
        ConsUnique(e, Remove(tail, t));
      }
    }
  }

  lemma SetRatingUnique(es: Entries, t: Title, x: real)
    requires Unique(es)
    ensures Unique(SetRating(es, t, x))
  {
    SameTitlesUnique(es, SetRating(es, t, x));
  }

  /** Adding a new title appends it after every existing entry. */
  lemma {:induction false} PutNewAppends(es: Entries, t: Title, m: Movie)
    requires t !in Titles(es)
    ensures Put(es, t, m) == es + [Entry(t, m)]
  {
    if es != [] {
      var e, tail := es[0], es[1..];
      assert es == [e] + tail;
      assert Titles(tail) == Titles(es)[1..];
      assert e.title == Titles(es)[0];
      PutNewAppends(tail, t, m);
      PutCons(e, tail, t, m);
    }
  }

  /** An appended record reads back under its title with exactly the values given,
      and every other title reads as before. */
  lemma AppendedReadsBack(es: Entries, t: Title, m: Movie)
    requires t !in Titles(es)
    ensures Lookup(es + [Entry(t, m)], t) == Some(m)
    ensures forall u :: u != t ==> Lookup(es + [Entry(t, m)], u) == Lookup(es, u)
  {
    PutNewAppends(es, t, m);
    forall u
      ensures Lookup(es + [Entry(t, m)], u) == if u == t then Some(m) else Lookup(es, u)
    {
      PutLookup(es, t, m, u);
    }
  }

  /** Overwriting an existing title keeps its position and leaves every other entry in place. */
  lemma {:induction false} PutKeepsPosition(es: Entries, i: nat, m: Movie)
    requires Unique(es) && i < |es|
    ensures Put(es, es[i].title, m) == es[i := Entry(es[i].title, m)]
  {
    if i == 0 {
      PutHead(es, es[0].title, m);
      UpdateStep(es, 0, Entry(es[0].title, m));
    } else {
      UniqueTail(es);
      assert es[1..][i - 1] == es[i];
      assert es[0].title != es[i].title;
      PutKeepsPosition(es[1..], i - 1, m);
      PutHead(es, es[i].title, m);
      UpdateStep(es, i, Entry(es[i].title, m));
    }
  }

  lemma PutHead(es: Entries, t: Title, m: Movie)
    requires es != []
    ensures Put(es, t, m) == if es[0].title == t then [Entry(t, m)] + es[1..] else [es[0]] + Put(es[1..], t, m)
  {
  }

  /** Updating index i of a non-empty sequence is updating the tail, or replacing the head. */
  lemma UpdateStep(es: Entries, i: nat, v: Entry)
    requires i < |es|
    ensures es[i := v] == if i == 0 then [v] + es[1..] else [es[0]] + es[1..][i - 1 := v]
  {
    var a, b := es[i := v], if i == 0 then [v] + es[1..] else [es[0]] + es[1..][i - 1 := v];
    assert |a| == |b|;
    forall k | 0 <= k < |a|
      ensures a[k] == b[k]
    {
      if k > 0 {
        assert b[k] == (if i == 0 then es[1..] else es[1..][i - 1 := v])[k - 1];
      }
    }
  }

  /** Deleting the title at position i closes the gap and keeps the rest in order. */
  lemma {:induction false} RemoveAt(es: Entries, i: nat)
    requires Unique(es) && i < |es|
    ensures Remove(es, es[i].title) == es[..i] + es[i + 1..]
  {
    UniqueTail(es);
    if i == 0 {
      RemoveHead(es, es[0].title);
      assert es[..0] + es[1..] == es[1..];
    } else {
      assert es[1..][i - 1] == es[i];
      assert es[0].title != es[i].title;
      RemoveAt(es[1..], i - 1);
      RemoveAtStep(es, i);
    }
  }

  lemma RemoveAtStep(es: Entries, i: nat)
    requires 0 < i < |es| && es[0].title != es[i].title
    requires Remove(es[1..], es[i].title) == es[1..][..i - 1] + es[1..][i..]
    ensures Remove(es, es[i].title) == es[..i] + es[i + 1..]
  {
    RemoveHead(es, es[i].title);
    GapCons(es, i);
    AppendAssoc([es[0]], es[1..][..i - 1], es[1..][i..]);
  }

  lemma RemoveHead(es: Entries, t: Title)
    requires es != []
    ensures Remove(es, t) == if es[0].title == t then Remove(es[1..], t) else [es[0]] + Remove(es[1..], t)
  {
  }

  lemma AppendAssoc(x: Entries, a: Entries, b: Entries)
    ensures x + (a + b) == (x + a) + b
  {
  }

  lemma GapCons(es: Entries, i: nat)
    requires 0 < i < |es|
    ensures es[..i] == [es[0]] + es[1..][..i - 1]
    ensures es[i + 1..] == es[1..][i..]
  {
  }

  /** Position k after a rating update: the entry with the title has the new rating and
      its other fields; every other entry is the same. */
  lemma {:induction false} SetRatingIndex(es: Entries, t: Title, x: real, k: nat)
    requires k < |es|
    ensures SetRating(es, t, x)[k] == if es[k].title == t then Entry(t, es[k].movie.(rating := x)) else es[k]
  {
    SetRatingHead(es, t, x);
    if k > 0 {
      SetRatingIndex(es[1..], t, x, k - 1);
      assert es[1..][k - 1] == es[k];
    }
  }

  lemma SetRatingHead(es: Entries, t: Title, x: real)
    requires es != []
    ensures SetRating(es, t, x) == [if es[0].title == t then Entry(t, es[0].movie.(rating := x)) else es[0]] + SetRating(es[1..], t, x)
  {
  }

  /** With distinct titles, updating the rating of the title at position i changes that
      entry's rating and nothing else. */
  lemma SetRatingAt(es: Entries, i: nat, x: real)
    requires Unique(es) && i < |es|
    ensures SetRating(es, es[i].title, x) == es[i := Entry(es[i].title, es[i].movie.(rating := x))]
  {
    var t := es[i].title;
    var r, want := SetRating(es, t, x), es[i := Entry(t, es[i].movie.(rating := x))];
    assert |r| == |Titles(r)| == |Titles(es)| == |want|;
    forall k | 0 <= k < |r|
      ensures r[k] == want[k]
    {
      SetRatingIndex(es, t, x, k);
    }
  }

  lemma {:induction false} SetRatingAbsent(es: Entries, t: Title, x: real)
    requires t !in Titles(es)
    ensures SetRating(es, t, x) == es
  {
    if es != [] {
      var e, tail := es[0], es[1..];
      assert es == [e] + tail;
      assert Titles(tail) == Titles(es)[1..];
      assert e.title == Titles(es)[0];
      SetRatingAbsent(tail, t, x);
      SetRatingCons(e, tail, t, x);
    }
  }

  /** Adding a new title and then deleting it restores the collection exactly, order included. */
  lemma AddThenDeleteRestores(es: Entries, t: Title, m: Movie)
    requires t !in Titles(es)
    ensures Remove(Put(es, t, m), t) == es
  {
    var r := Put(es, t, m);
    PutNewAppends(es, t, m);
    assert Unique([Entry(t, m)]);
    RemoveAppended(es, Entry(t, m));
  }

  lemma {:induction false} RemoveAppended(es: Entries, e: Entry)
    requires e.title !in Titles(es)
    ensures Remove(es + [e], e.title) == es
  {
    if es == [] {
      assert [e][1..] == [];
    } else {
      var h, tail := es[0], es[1..];
      assert es + [e] == [h] + (tail + [e]);
      assert Titles(tail) == Titles(es)[1..];
      assert h.title == Titles(es)[0];
      RemoveAppended(tail, e);
      RemoveCons(h, tail + [e], e.title);
      assert es == [h] + tail;
    }
  }

  /** The backing file as a reader sees it: unreadable (missing, or not valid JSON),
      or holding a collection. */
  datatype FileState = Unreadable | Holds(movies: Entries) {
    /** A dict cannot hold a key twice. */
    predicate WellFormed() {
      Holds? ==> Unique(movies)
    }
  }

  /** What a tolerant reader gets: the stored collection, or `{}` when the file cannot be read. */
  function Load(f: FileState): Entries {
    match f
    case Unreadable => []
    case Holds(movies) => movies
  }
}
