/**
 * The post archive: ordering posts by publication time and counting them per
 * day and per month (`blog_sort_posts`, `blog_posts_by_day`,
 * `blog_posts_by_month`), plus the per-day selection of the archive page.
 */
module Posts {
  import opened Wrappers
  import opened Strings
  import opened Sorting

  datatype Post = Post(id: string, title: string, content: string, imagePath: string,
                       publishedAt: string, createdAt: string)

  /**
   * PHP's date functions as oracles: `strtotime` (None for `false`),
   * `date('Y-m-d', ts)` and `date('Y-m', ts)` in the configured time zone,
   * and `time()` for the current request.
   */
  datatype Clock = Clock(now: int, parse: string -> Option<int>,
                         dayKey: int -> string, monthKey: int -> string)

  /** `strtotime($s) ?: $fallback`: `false`, and also the falsy timestamp 0, give the fallback. */
  function TimeOr(parse: string -> Option<int>, s: string, fallback: int): (t: int)
    ensures t == fallback || (parse(s) == Some(t) && t != 0)
    ensures parse(s).Some? && parse(s).value != 0 ==> t == parse(s).value
  {
    match parse(s)
    case Some(t) => if t != 0 then t else fallback
    case None => fallback
  }

  /** The comparator's key: an unparsable `published_at` counts as 0. */
  function PostTime(p: Post, parse: string -> Option<int>): int
  {
    TimeOr(parse, p.publishedAt, 0)
  }

  /** The order `usort` is given: `$timeA <=> $timeB`, or `$timeB <=> $timeA` for `'desc'`. */
  function Before(direction: string, parse: string -> Option<int>): (Post, Post) -> bool
  {
    if direction == "desc" then (a: Post, b: Post) => PostTime(b, parse) <= PostTime(a, parse)
    else (a: Post, b: Post) => PostTime(a, parse) <= PostTime(b, parse)
  }

  lemma BeforeIsOrder(direction: string, parse: string -> Option<int>)
    ensures StronglyConnected(Before(direction, parse)) && Transitive(Before(direction, parse))
  {
  }

  /**
   * `blog_sort_posts`: a permutation of the posts, non-decreasing in
   * publication time, or non-increasing for `'desc'`.
   */
  function SortPosts(posts: seq<Post>, direction: string, parse: string -> Option<int>): (r: seq<Post>)
    ensures multiset(r) == multiset(posts)
    ensures direction != "desc" ==>
      forall i, j :: 0 <= i < j < |r| ==> PostTime(r[i], parse) <= PostTime(r[j], parse)
    ensures direction == "desc" ==>
      forall i, j :: 0 <= i < j < |r| ==> PostTime(r[i], parse) >= PostTime(r[j], parse)
  {
    var le := Before(direction, parse);
    BeforeIsOrder(direction, parse);
    SortSorted(posts, le);
    Sort(posts, le)
  }

  /** The posts published at time `t`, in order. */
  function AtTime(s: seq<Post>, parse: string -> Option<int>, t: int): seq<Post>
  {
    if s == [] then []
    else (if PostTime(s[0], parse) == t then [s[0]] else []) + AtTime(s[1..], parse, t)
  }

  lemma {:induction false} InsertAtTime(x: Post, s: seq<Post>, direction: string, parse: string -> Option<int>, t: int)
    ensures AtTime(Insert(x, s, Before(direction, parse)), parse, t)
         == (if PostTime(x, parse) == t then [x] else []) + AtTime(s, parse, t)
  {
    var le := Before(direction, parse);
    if s == [] || le(x, s[0]) {
      assert ([x] + s)[1..] == s;
    } else {
      InsertAtTime(x, s[1..], direction, parse, t);
      assert ([s[0]] + Insert(x, s[1..], le))[1..] == Insert(x, s[1..], le);
    }
  }

  /**
   * The sort is stable: posts with the same publication time keep their
   * relative order (PHP 8's `usort` is stable).
   */
  lemma {:induction false} SortPostsStable(posts: seq<Post>, direction: string, parse: string -> Option<int>, t: int)
    ensures AtTime(SortPosts(posts, direction, parse), parse, t) == AtTime(posts, parse, t)
  {
    var le := Before(direction, parse);
    if posts != [] {
      SortPostsStable(posts[1..], direction, parse, t);
      InsertAtTime(posts[0], Sort(posts[1..], le), direction, parse, t);
    }
  }

  /** Posts that share a publication time are the same record. */
  ghost predicate DistinctTimes(posts: seq<Post>, parse: string -> Option<int>)
  {
    forall p, q :: p in posts && q in posts && PostTime(p, parse) == PostTime(q, parse) ==> p == q
  }

  ghost predicate Ordered(s: seq<Post>, direction: string, parse: string -> Option<int>)
  {
    forall i, j :: 0 <= i < j < |s| ==> Before(direction, parse)(s[i], s[j])
  }

  /** Two ordered arrangements of the same posts start with the same post. */
  lemma SameFirst(a: seq<Post>, b: seq<Post>, direction: string, parse: string -> Option<int>)
    requires a != [] && multiset(a) == multiset(b) && DistinctTimes(a, parse)
    requires Ordered(a, direction, parse) && Ordered(b, direction, parse)
    ensures b != [] && a[0] == b[0]
  {
    var le := Before(direction, parse);
    assert a[0] in multiset(b);
    assert b[0] in multiset(a);
    var i :| 0 <= i < |b| && b[i] == a[0];
    var j :| 0 <= j < |a| && a[j] == b[0];
    assert le(a[0], a[j]) || j == 0;
    assert le(b[0], b[i]) || i == 0;
    assert PostTime(a[0], parse) == PostTime(b[0], parse);
  }

  /** With distinct publication times there is only one ordered arrangement of a list of posts. */
  lemma {:induction false} OrderedUnique(a: seq<Post>, b: seq<Post>, direction: string, parse: string -> Option<int>)
    requires multiset(a) == multiset(b) && DistinctTimes(a, parse)
    requires Ordered(a, direction, parse) && Ordered(b, direction, parse)
    ensures a == b
  {
    if a == [] {
      assert |b| == |multiset(b)| == 0;
    } else {
      SameFirst(a, b, direction, parse);
      MultisetTail(a, b);
      OrderedTail(a, direction, parse);
      OrderedTail(b, direction, parse);
      DistinctTail(a, parse);
      OrderedUnique(a[1..], b[1..], direction, parse);
      assert a == [a[0]] + a[1..] && b == [b[0]] + b[1..];
    }
  }

  lemma MultisetTail<T>(a: seq<T>, b: seq<T>)
    requires a != [] && b != [] && a[0] == b[0] && multiset(a) == multiset(b)
    ensures multiset(a[1..]) == multiset(b[1..])
  {
    assert a == [a[0]] + a[1..] && b == [b[0]] + b[1..];
    assert multiset(a) == multiset{a[0]} + multiset(a[1..]);
    assert multiset(b) == multiset{b[0]} + multiset(b[1..]);
    assert multiset(a[1..]) == multiset(a) - multiset{a[0]};
    assert multiset(b[1..]) == multiset(b) - multiset{b[0]};
  }

  lemma OrderedTail(a: seq<Post>, direction: string, parse: string -> Option<int>)
    requires a != [] && Ordered(a, direction, parse)
    ensures Ordered(a[1..], direction, parse)
  {
    var t := a[1..];
    forall i, j | 0 <= i < j < |t| ensures Before(direction, parse)(t[i], t[j]) {
      assert t[i] == a[i + 1] && t[j] == a[j + 1];
    }
  }

  lemma DistinctTail(a: seq<Post>, parse: string -> Option<int>)
    requires a != [] && DistinctTimes(a, parse)
    ensures DistinctTimes(a[1..], parse)
  {
    assert forall p :: p in a[1..] ==> p in a;
  }

  function Reverse<T>(s: seq<T>): (r: seq<T>)
    ensures |r| == |s| && forall k :: 0 <= k < |s| ==> r[k] == s[|s| - 1 - k]
  {
    if s == [] then [] else Reverse(s[1..]) + [s[0]]
  }

  lemma {:induction false} ReverseMultiset<T>(s: seq<T>)
    ensures multiset(Reverse(s)) == multiset(s)
  {
    if s != [] {
      ReverseMultiset(s[1..]);
      assert s == [s[0]] + s[1..];
    }
  }

  /**
   * When no two posts share a publication time, the descending order is the
   * ascending order reversed.
   */
  lemma DescendingIsReversedAscending(posts: seq<Post>, parse: string -> Option<int>)
    requires DistinctTimes(posts, parse)
    ensures Reverse(SortPosts(posts, "asc", parse)) == SortPosts(posts, "desc", parse)
  {
    var asc := SortPosts(posts, "asc", parse);
    var desc := SortPosts(posts, "desc", parse);
    var rev := Reverse(asc);
    ReverseMultiset(asc);
    assert Ordered(rev, "desc", parse);
    assert Ordered(desc, "desc", parse);
    forall p | p in rev ensures p in posts {
      assert p in multiset(rev);
    }
    OrderedUnique(rev, desc, "desc", parse);
  }

  /** The posts on `date` for the archive page: `date('Y-m-d', strtotime(...) ?: 0)`. */
  function OnDay(p: Post, clock: Clock, date: string): bool
  {
    clock.dayKey(TimeOr(clock.parse, p.publishedAt, 0)) == date
  }

  /** The `array_filter` of the archive page: the posts of `date`, in their order. */
  function PostsOnDay(posts: seq<Post>, clock: Clock, date: string): (r: seq<Post>)
    ensures forall p :: p in r ==> OnDay(p, clock, date)
    ensures forall p :: multiset(r)[p] == if OnDay(p, clock, date) then multiset(posts)[p] else 0
  {
    if posts == [] then []
    else
      assert posts == [posts[0]] + posts[1..];
      (if OnDay(posts[0], clock, date) then [posts[0]] else []) + PostsOnDay(posts[1..], clock, date)
  }

  /** Selecting the posts of a day keeps their order: from an ascending list comes an ascending list. */
  lemma {:induction false} PostsOnDayOrdered(posts: seq<Post>, clock: Clock, date: string, direction: string)
    requires Ordered(posts, direction, clock.parse)
    ensures Ordered(PostsOnDay(posts, clock, date), direction, clock.parse)
  {
    if posts != [] {
      var rest := PostsOnDay(posts[1..], clock, date);
      OrderedTail(posts, direction, clock.parse);
      PostsOnDayOrdered(posts[1..], clock, date, direction);
      if OnDay(posts[0], clock, date) {
        forall q | q in rest ensures Before(direction, clock.parse)(posts[0], q) {
          assert q in multiset(rest);
          var j :| 0 <= j < |posts[1..]| && posts[1..][j] == q;
          assert posts[j + 1] == q;
        }
        OrderedCons(posts[0], rest, direction, clock.parse);
      } else {
        assert [] + rest == rest;
      }
    }
  }

  lemma OrderedCons(x: Post, s: seq<Post>, direction: string, parse: string -> Option<int>)
    requires Ordered(s, direction, parse)
    requires forall q :: q in s ==> Before(direction, parse)(x, q)
    ensures Ordered([x] + s, direction, parse)
  {
    var t := [x] + s;
    forall i, j | 0 <= i < j < |t| ensures Before(direction, parse)(t[i], t[j]) {
      assert t[j] == s[j - 1];
      if i > 0 {
        assert t[i] == s[i - 1];
      }
    }
  }

  // ---------------------------------------------------------------------------
  // Per-day and per-month counts

  /** A map from keys to counts together with the order its keys are listed in. */
  datatype Tally = Tally(keys: seq<string>, counts: map<string, nat>)

  ghost predicate NoDuplicates(s: seq<string>)
  {
    forall k :: k in s ==> multiset(s)[k] == 1
  }

  /** `t` counts the keys of `ks`: one entry per distinct key, each with its number of occurrences. */
  ghost predicate Describes(t: Tally, ks: seq<string>)
  {
    && (forall k :: k in t.counts <==> k in ks)
    && (forall k :: k in t.counts ==> t.counts[k] == multiset(ks)[k])
    && (forall k :: k in t.keys <==> k in t.counts)
    && NoDuplicates(t.keys)
  }

  /** The sum of the counts of the listed keys. */
  function Total(keys: seq<string>, counts: map<string, nat>): nat
  {
    if keys == [] then 0
    else (if keys[0] in counts then counts[keys[0]] else 0) + Total(keys[1..], counts)
  }

  lemma {:induction false} TotalAppend(keys: seq<string>, counts: map<string, nat>, k: string)
    ensures Total(keys + [k], counts) == Total(keys, counts) + (if k in counts then counts[k] else 0)
  {
    if keys != [] {
      assert (keys + [k])[1..] == keys[1..] + [k];
      TotalAppend(keys[1..], counts, k);
    }
  }

  lemma {:induction false} TotalIgnores(keys: seq<string>, counts: map<string, nat>, k: string, v: nat)
    requires k !in keys
    ensures Total(keys, counts[k := v]) == Total(keys, counts)
  {
    if keys != [] {
      TotalIgnores(keys[1..], counts, k, v);
    }
  }

  lemma {:induction false} TotalBump(keys: seq<string>, counts: map<string, nat>, k: string)
    requires k in counts && multiset(keys)[k] == 1
    ensures Total(keys, counts[k := counts[k] + 1]) == Total(keys, counts) + 1
  {
    assert keys == [keys[0]] + keys[1..];
    if keys[0] == k {
      assert multiset(keys[1..])[k] == 0;
      TotalIgnores(keys[1..], counts, k, counts[k] + 1);
    } else {
      TotalBump(keys[1..], counts, k);
    }
  }

  lemma {:induction false} TotalInsert(x: string, keys: seq<string>, counts: map<string, nat>, le: (string, string) -> bool)
    ensures Total(Insert(x, keys, le), counts) == Total([x], counts) + Total(keys, counts)
  {
    if keys == [] || le(x, keys[0]) {
      assert ([x] + keys)[1..] == keys;
    } else {
      TotalInsert(x, keys[1..], counts, le);
      assert ([keys[0]] + Insert(x, keys[1..], le))[1..] == Insert(x, keys[1..], le);
    }
  }

  /** Listing the keys in another order does not change the sum. */
  lemma {:induction false} TotalSort(keys: seq<string>, counts: map<string, nat>, le: (string, string) -> bool)
    ensures Total(Sort(keys, le), counts) == Total(keys, counts)
  {
    if keys != [] {
      TotalSort(keys[1..], counts, le);
      TotalInsert(keys[0], Sort(keys[1..], le), counts, le);
    }
  }

  /** The tally after one more occurrence of `k`: a new key starts at 0, then its count goes up by one. */
  function Counted(t: Tally, k: string): Tally
  {
    var keys := if k in t.counts then t.keys else t.keys + [k];
    var counts := if k in t.counts then t.counts else t.counts[k := 0];
    Tally(keys, counts[k := counts[k] + 1])
  }

  /** The tally of `ks`, one occurrence at a time. */
  function Tallied(ks: seq<string>): Tally
  {
    if ks == [] then Tally([], map[])
    else Counted(Tallied(ks[..|ks| - 1]), ks[|ks| - 1])
  }

  /**
   * The counting loop shared by both tallies: one map entry per distinct key,
   * incremented once per occurrence; keys listed in order of first occurrence.
   */
  method CountKeys(ks: seq<string>) returns (t: Tally)
    ensures t == Tallied(ks)
    ensures Describes(t, ks)
    ensures Total(t.keys, t.counts) == |ks|
  {
    var keys: seq<string> := [];
    var counts: map<string, nat> := map[];
    var i := 0;
    while i < |ks|
      invariant 0 <= i <= |ks|
      invariant Tally(keys, counts) == Tallied(ks[..i])
    {
      var k := ks[i];
      ghost var before := Tally(keys, counts);
      if k !in counts {
        keys := keys + [k];
        counts := counts[k := 0];
      }
      counts := counts[k := counts[k] + 1];
      assert ks[..i + 1][..i] == ks[..i];
      assert Tally(keys, counts) == Counted(before, k);
      i := i + 1;
    }
    assert ks[..|ks|] == ks;
    t := Tally(keys, counts);
    TalliedDescribes(ks);
  }

  /** The tally describes the keys it counted, and its sum is their number. */
  lemma {:induction false} TalliedDescribes(ks: seq<string>)
    ensures Describes(Tallied(ks), ks)
    ensures Total(Tallied(ks).keys, Tallied(ks).counts) == |ks|
  {
    if ks != [] {
      var init := ks[..|ks| - 1];
      TalliedDescribes(init);
      assert ks == init + [ks[|ks| - 1]];
      CountStep(Tallied(init), init, ks[|ks| - 1], ks);
    } else {
      assert multiset(ks) == multiset{};
    }
  }

  /** One more occurrence of `k` keeps the description and adds one to the sum. */
  lemma CountStep(t: Tally, ks: seq<string>, k: string, next: seq<string>)
    requires Describes(t, ks) && next == ks + [k]
    ensures Describes(Counted(t, k), next)
    ensures Total(Counted(t, k).keys, Counted(t, k).counts) == Total(t.keys, t.counts) + 1
  {
    if k in t.counts {
      assert Counted(t, k) == Tally(t.keys, t.counts[k := t.counts[k] + 1]);
      TotalBump(t.keys, t.counts, k);
      DescribesBump(t, ks, k, next);
    } else {
      assert Counted(t, k) == Tally(t.keys + [k], t.counts[k := 0][k := 1]);
      TotalNew(t, ks, k);
      DescribesNew(t, ks, k, next);
    }
  }

  lemma TotalNew(t: Tally, ks: seq<string>, k: string)
    requires Describes(t, ks) && k !in t.counts
    ensures Total(t.keys + [k], t.counts[k := 0][k := 1]) == Total(t.keys, t.counts) + 1
  {
    assert t.counts[k := 0][k := 1] == t.counts[k := 1];
    assert k !in t.keys;
    TotalIgnores(t.keys, t.counts, k, 1);
    TotalAppend(t.keys, t.counts[k := 1], k);
  }

  lemma DescribesBump(t: Tally, ks: seq<string>, k: string, next: seq<string>)
    requires Describes(t, ks) && next == ks + [k] && k in t.counts
    ensures Describes(Tally(t.keys, t.counts[k := t.counts[k] + 1]), next)
  {
    assert multiset(next) == multiset(ks) + multiset{k};
  }

  lemma DescribesNew(t: Tally, ks: seq<string>, k: string, next: seq<string>)
    requires Describes(t, ks) && next == ks + [k] && k !in t.counts
    ensures Describes(Tally(t.keys + [k], t.counts[k := 0][k := 1]), next)
  {
    assert multiset(next) == multiset(ks) + multiset{k};
    assert multiset(t.keys + [k]) == multiset(t.keys) + multiset{k};
    assert t.counts[k := 0][k := 1] == t.counts[k := 1];
  }

  /** Sorting the listed keys keeps the tally's description and its sum. */
  lemma SortKeys(t: Tally, ks: seq<string>, le: (string, string) -> bool)
    requires Describes(t, ks)
    ensures Describes(Tally(Sort(t.keys, le), t.counts), ks)
    ensures Total(Sort(t.keys, le), t.counts) == Total(t.keys, t.counts)
  {
    var s := Sort(t.keys, le);
    forall k ensures k in s <==> k in t.keys {
      assert k in s <==> k in multiset(s);
    }
    TotalSort(t.keys, t.counts, le);
  }

  function Ascending(): (string, string) -> bool
  {
    (a: string, b: string) => StrLe(a, b)
  }

  function Descending(): (string, string) -> bool
  {
    (a: string, b: string) => StrLe(b, a)
  }

  lemma StringOrders()
    ensures StronglyConnected(Ascending()) && Transitive(Ascending())
    ensures StronglyConnected(Descending()) && Transitive(Descending())
  {
    forall a, b ensures StrLe(a, b) || StrLe(b, a) {
      StrLeTotal(a, b);
    }
    forall a, b, c | StrLe(a, b) && StrLe(b, c) ensures StrLe(a, c) {
      StrLeTransitive(a, b, c);
    }
  }

  /** The day a post is counted under: `date('Y-m-d', strtotime(...) ?: time())`. */
  function DayOf(p: Post, clock: Clock): string
  {
    clock.dayKey(TimeOr(clock.parse, p.publishedAt, clock.now))
  }

  /** The month a post is counted under: `date('Y-m', strtotime(...) ?: time())`. */
  function MonthOfPost(p: Post, clock: Clock): string
  {
    clock.monthKey(TimeOr(clock.parse, p.publishedAt, clock.now))
  }

  function DayKeys(posts: seq<Post>, clock: Clock): (ks: seq<string>)
    ensures |ks| == |posts| && forall i :: 0 <= i < |posts| ==> ks[i] == DayOf(posts[i], clock)
  {
    seq(|posts|, i requires 0 <= i < |posts| => DayOf(posts[i], clock))
  }

  function MonthKeys(posts: seq<Post>, clock: Clock): (ks: seq<string>)
    ensures |ks| == |posts| && forall i :: 0 <= i < |posts| ==> ks[i] == MonthOfPost(posts[i], clock)
  {
    seq(|posts|, i requires 0 <= i < |posts| => MonthOfPost(posts[i], clock))
  }

  /**
   * `blog_posts_by_day`: every post counted once under its day, the counts
   * summing to the number of posts, days listed in strictly ascending order
   * (`ksort`).
   */
  method PostsByDay(posts: seq<Post>, clock: Clock) returns (t: Tally)
    ensures Describes(t, DayKeys(posts, clock))
    ensures Total(t.keys, t.counts) == |posts|
    ensures forall i, j :: 0 <= i < j < |t.keys| ==> StrLe(t.keys[i], t.keys[j]) && t.keys[i] != t.keys[j]
  {
    var ks := DayKeys(posts, clock);
    var counted := CountKeys(ks);
    StringOrders();
    SortKeys(counted, ks, Ascending());
    SortSorted(counted.keys, Ascending());
    t := Tally(Sort(counted.keys, Ascending()), counted.counts);
    DistinctPositions(t.keys);
  }

  /**
   * `blog_posts_by_month`: the same per month, months listed in strictly
   * descending order (`krsort`).
   */
  method PostsByMonth(posts: seq<Post>, clock: Clock) returns (t: Tally)
    ensures Describes(t, MonthKeys(posts, clock))
    ensures Total(t.keys, t.counts) == |posts|
    ensures forall i, j :: 0 <= i < j < |t.keys| ==> StrLe(t.keys[j], t.keys[i]) && t.keys[i] != t.keys[j]
  {
    var ks := MonthKeys(posts, clock);
    var counted := CountKeys(ks);
    StringOrders();
    SortKeys(counted, ks, Descending());
    SortSorted(counted.keys, Descending());
    t := Tally(Sort(counted.keys, Descending()), counted.counts);
    DistinctPositions(t.keys);
  }

  lemma DistinctPositions(s: seq<string>)
    requires NoDuplicates(s)
    ensures forall i, j :: 0 <= i < j < |s| ==> s[i] != s[j]
  {
    forall i, j | 0 <= i < j < |s| ensures s[i] != s[j] {
      if s[i] == s[j] {
        TwiceCounted(s, i, j);
        assert false;
      }
    }
  }

  lemma TwiceCounted(s: seq<string>, i: int, j: int)
    requires 0 <= i < j < |s| && s[i] == s[j]
    ensures multiset(s)[s[i]] >= 2
  {
    assert s == s[..j] + s[j..];
    assert s[i] in s[..j] && s[j] in s[j..];
    assert multiset(s) == multiset(s[..j]) + multiset(s[j..]);
  }
}
