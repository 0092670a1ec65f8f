/**
 * GET /stats: the number of published books and of genres, how many books
 * carry each publication year, and the ten authors with the most books.
 */
module BookStats {
  import opened Wrappers
  import opened Php
  import opened PhpArray
  import opened Sorting
  import opened Host
  import BookEndpoints

  /** Whether post p has a truthy value v for meta key `key`. */
  predicate HasValue(p: Post, key: string, v: string) {
    Truthy(PostMeta(p, key)) && PostMeta(p, key) == v
  }

  /** How many posts have the truthy value v for `key`. */
  function MetaCount(posts: seq<Post>, key: string, v: string): nat {
    if posts == [] then 0
    else MetaCount(posts[..|posts| - 1], key, v) + (if HasValue(posts[|posts| - 1], key, v) then 1 else 0)
  }

  /** How many posts have any truthy value for `key`. */
  function TruthyCount(posts: seq<Post>, key: string): nat {
    if posts == [] then 0
    else TruthyCount(posts[..|posts| - 1], key) + (if Truthy(PostMeta(posts[|posts| - 1], key)) then 1 else 0)
  }

  /** A count after one more occurrence: one when the value was not yet counted. */
  function Bumped(c: Option<nat>): nat {
    if c.Some? then c.value + 1 else 1
  }

  /** One step of the counting `foreach`: a truthy value's count goes up by one. */
  function CountStep(counts: Assoc<string, nat>, v: string): Assoc<string, nat> {
    if Truthy(v) then Put(counts, v, Bumped(Get(counts, v))) else counts
  }

  /** The counting array the `foreach` builds over the posts in turn. */
  function CountsOf(posts: seq<Post>, key: string): Assoc<string, nat> {
    if posts == [] then []
    else CountStep(CountsOf(posts[..|posts| - 1], key), PostMeta(posts[|posts| - 1], key))
  }

  /** The counting array holds each value once. */
  lemma {:induction false} CountsDistinct(posts: seq<Post>, key: string)
    ensures DistinctKeys(CountsOf(posts, key))
  {
    if posts != [] {
      var init := posts[..|posts| - 1];
      CountsDistinct(init, key);
      var counts := CountsOf(init, key);
      var v := PostMeta(posts[|posts| - 1], key);
      if Truthy(v) {
        PutDistinct(counts, v, Bumped(Get(counts, v)));
      }
    }
  }

  /**
   * A value's count is the number of posts with that value, and only values
   * that occur are present.
   */
  lemma {:induction false} CountsCount(posts: seq<Post>, key: string, w: string)
    ensures Get(CountsOf(posts, key), w).GetOr(0) == MetaCount(posts, key, w)
    ensures Get(CountsOf(posts, key), w).Some? <==> MetaCount(posts, key, w) > 0
  {
    if posts != [] {
      var init := posts[..|posts| - 1];
      CountsCount(init, key, w);
      GetCountStep(CountsOf(init, key), PostMeta(posts[|posts| - 1], key), w);
    }
  }

  /** A step on a truthy value stores its count plus one under it and leaves every other key alone. */
  lemma GetCountStep(counts: Assoc<string, nat>, v: string, w: string)
    ensures Get(CountStep(counts, v), w) == if Truthy(v) && v == w then Some(Bumped(Get(counts, w))) else Get(counts, w)
  {
    if Truthy(v) {
      GetPut(counts, v, Bumped(Get(counts, v)), w);
    }
  }

  /** A step adds one to the sum exactly when the value is truthy. */
  lemma SumCountStep(counts: Assoc<string, nat>, v: string)
    requires DistinctKeys(counts)
    ensures SumValues(CountStep(counts, v)) == SumValues(counts) + (if Truthy(v) then 1 else 0)
  {
    if Truthy(v) {
      SumPut(counts, v, Bumped(Get(counts, v)));
    }
  }

  /** The counts add up to the number of posts with a truthy value. */
  lemma {:induction false} CountsSum(posts: seq<Post>, key: string)
    ensures SumValues(CountsOf(posts, key)) == TruthyCount(posts, key)
  {
    if posts != [] {
      var init := posts[..|posts| - 1];
      CountsSum(init, key);
      CountsDistinct(init, key);
      SumCountStep(CountsOf(init, key), PostMeta(posts[|posts| - 1], key));
    }
  }

  /** The `foreach` that counts a meta value over the query's posts. */
  method CountValues(posts: seq<Post>, key: string) returns (counts: Assoc<string, nat>)
    ensures counts == CountsOf(posts, key)
    ensures DistinctKeys(counts)
    ensures forall v :: Get(counts, v).GetOr(0) == MetaCount(posts, key, v)
    ensures forall v :: Get(counts, v).Some? <==> MetaCount(posts, key, v) > 0
    ensures SumValues(counts) == TruthyCount(posts, key)
  {
    counts := [];
    var i := 0;
    while i < |posts|
      invariant 0 <= i <= |posts|
      invariant counts == CountsOf(posts[..i], key)
    {
      var v := PostMeta(posts[i], key);
      ghost var next := posts[..i + 1];
      assert next[..|next| - 1] == posts[..i] && next[|next| - 1] == posts[i];
      if Truthy(v) {
        var c := Get(counts, v);
        counts := Put(counts, v, Bumped(c));
      }
      assert counts == CountsOf(next, key);
      i := i + 1;
    }
    assert posts[..|posts|] == posts;
    CountsDistinct(posts, key);
    CountsSum(posts, key);
    forall v
      ensures Get(counts, v).GetOr(0) == MetaCount(posts, key, v)
      ensures Get(counts, v).Some? <==> MetaCount(posts, key, v) > 0
    {
      CountsCount(posts, key, v);
    }
  }

  function CountKey(e: (string, nat)): int {
    e.1
  }

  /** `arsort` then `array_slice(..., 0, 10, true)`: the ten largest counts. */
  function TopTen(counts: Assoc<string, nat>): Assoc<string, nat> {
    var sorted := SortDesc(counts, CountKey);
    sorted[..if |sorted| < 10 then |sorted| else 10]
  }

  /**
   * The top list has at most ten entries (all of them when there are at most
   * ten authors), ordered by non-increasing count; each entry is an author
   * with their full count, and no author left out has more books than any
   * author listed.
   */
  lemma TopTenMeaning(counts: Assoc<string, nat>)
    ensures |TopTen(counts)| == if |counts| < 10 then |counts| else 10
    ensures SortedDesc(TopTen(counts), CountKey)
    ensures forall e :: e in TopTen(counts) ==> e in counts
    ensures |counts| <= 10 ==> multiset(TopTen(counts)) == multiset(counts)
    ensures forall e, t :: e in counts && e !in TopTen(counts) && t in TopTen(counts) ==> t.1 >= e.1
  {
    var sorted := SortDesc(counts, CountKey);
    var n := if |sorted| < 10 then |sorted| else 10;
    var top := sorted[..n];
    assert top == TopTen(counts);
    forall e | e in top
      ensures e in counts
    {
      SortDescMembers(counts, CountKey, e);
    }
    if |counts| <= 10 {
      assert top == sorted;
    }
    forall e, t | e in counts && e !in top && t in top
      ensures t.1 >= e.1
    {
      SortDescMembers(counts, CountKey, e);
      var j :| 0 <= j < |sorted| && sorted[j] == e;
      var i :| 0 <= i < n && top[i] == t;
      assert j >= n;
      assert CountKey(sorted[i]) >= CountKey(sorted[j]);
    }
  }

  /** The response of `bookshelf_get_stats`. */
  datatype Stats = Stats(
    totalBooks: nat,
    totalGenres: nat,
    booksByYear: Assoc<string, nat>,
    topAuthors: Assoc<string, nat>)

  /**
   * `bookshelf_get_stats`. The host supplies the two totals and the posts of
   * the two queries (books with a year, books with an author).
   */
  method GetStats(totalBooks: nat, totalGenres: nat, yearPosts: seq<Post>, authorPosts: seq<Post>)
    returns (s: Stats)
    ensures s.totalBooks == totalBooks && s.totalGenres == totalGenres
    ensures DistinctKeys(s.booksByYear)
    ensures forall y :: Get(s.booksByYear, y).GetOr(0) == MetaCount(yearPosts, "published_year", y)
    ensures forall y :: Get(s.booksByYear, y).Some? <==> MetaCount(yearPosts, "published_year", y) > 0
    ensures SumValues(s.booksByYear) == TruthyCount(yearPosts, "published_year")
    ensures s.topAuthors == TopTen(CountsOf(authorPosts, "author"))
    ensures |s.topAuthors| <= 10 && SortedDesc(s.topAuthors, CountKey)
    ensures forall e :: e in s.topAuthors ==> e.1 == MetaCount(authorPosts, "author", e.0)
  {
    var byYear := CountValues(yearPosts, "published_year");
    var authorCounts := CountValues(authorPosts, "author");
    var top := TopTen(authorCounts);
    TopTenMeaning(authorCounts);
    forall e | e in top
      ensures e.1 == MetaCount(authorPosts, "author", e.0)
    {
      var i :| 0 <= i < |authorCounts| && authorCounts[i] == e;
      GetAt(authorCounts, i);
    }
    s := Stats(totalBooks, totalGenres, byYear, top);
  }

  lemma {:induction false} MetaCountAppend(posts: seq<Post>, p: Post, key: string, v: string)
    ensures MetaCount(posts + [p], key, v) == MetaCount(posts, key, v) + (if HasValue(p, key, v) then 1 else 0)
  {
    assert (posts + [p])[..|posts|] == posts;
  }

  /**
   * Once a book created with a truthy year y shows up in the year query, the
   * count for y is one higher and every other year's count is unchanged.
   */
  lemma CreatedBookCountsOnce(posts: seq<Post>, p: BookEndpoints.CreateParams, userId: nat, now: string, y: string)
    requires OptIntTruthy(p.publishedYear)
    ensures var b := BookEndpoints.NewBook(p, userId, now);
      var year := IntMeta(p.publishedYear.value);
      && MetaCount(posts + [b], "published_year", year) == MetaCount(posts, "published_year", year) + 1
      && (y != year ==> MetaCount(posts + [b], "published_year", y) == MetaCount(posts, "published_year", y))
  {
    var b := BookEndpoints.NewBook(p, userId, now);
    var year := IntMeta(p.publishedYear.value);
    BookEndpoints.NewBookReadsBack(p, userId, now);
    MetaCountAppend(posts, b, "published_year", year);
    MetaCountAppend(posts, b, "published_year", y);
    IntMetaTruthy(p.publishedYear.value);
  }
}
