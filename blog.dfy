/**
 * `src/utils/blog.ts`: a blog post's date and URL come from its identifier
 * (the file name without `.md`, `YYYY-MM-DD-slug`), and the blog lists
 * posts newest first.
 */
module Blog {
  import opened Wrappers
  import opened Strings
  import opened Calendar

  datatype BlogData = BlogData(
    title: string,
    author: string,
    description: Option<string>,
    image: Option<string>,
    draft: Option<bool>)

  /** An entry of the blog collection: its identifier and its frontmatter. */
  datatype CollectionEntry = CollectionEntry(id: string, data: BlogData)

  /** What `parseBlogDate` returns; `date` is the time value in
      milliseconds, `None` for an Invalid Date. */
  datatype BlogDate = BlogDate(date: Option<int>, year: string, month: string, day: string, slug: string)

  /** A collection entry with its date fields spread over it. */
  datatype ParsedBlogPost = ParsedBlogPost(
    id: string,
    data: BlogData,
    date: Option<int>,
    year: string,
    month: string,
    day: string,
    slug: string)

  /* ---------------------------------------------------------------------- */
  /* Identifiers                                                             */
  /* ---------------------------------------------------------------------- */

  /** The identifier matches `^(\d{4})-(\d{2})-(\d{2})-(.+)$`: the slug is
      at least one character and, as `.` does not match them, holds no line
      terminator. */
  predicate IsDatedId(id: string) {
    && |id| >= 12
    && AllDigits(id[..4]) && id[4] == '-'
    && AllDigits(id[5..7]) && id[7] == '-'
    && AllDigits(id[8..10]) && id[10] == '-'
    && NoLineTerminator(id[11..])
  }

  /** The identifier spelled from its parts. */
  function DatedId(year: string, month: string, day: string, slug: string): string {
    year + "-" + month + "-" + day + "-" + slug
  }

  /** Parts the pattern can capture. */
  predicate IsIdParts(year: string, month: string, day: string, slug: string) {
    && |year| == 4 && AllDigits(year)
    && |month| == 2 && AllDigits(month)
    && |day| == 2 && AllDigits(day)
    && slug != [] && NoLineTerminator(slug)
  }

  /** `parseBlogDate(id)`, the current time `now` given as a parameter. */
  function ParseBlogDate(id: string, now: int): (r: BlogDate)
    ensures IsDatedId(id) ==>
              && IsIdParts(r.year, r.month, r.day, r.slug)
              && id == DatedId(r.year, r.month, r.day, r.slug)
              && r.date == IsoDateValue(r.year, r.month, r.day)
    ensures !IsDatedId(id) ==> r == BlogDate(Some(now), "2024", "01", "01", id)
  {
    if IsDatedId(id) then
      var r := BlogDate(IsoDateValue(id[..4], id[5..7], id[8..10]), id[..4], id[5..7], id[8..10], id[11..]);
      assert id == DatedId(r.year, r.month, r.day, r.slug);
      r
    else
      BlogDate(Some(now), "2024", "01", "01", id)
  }

  /** The parts of an identifier are what `parseBlogDate` returns for it. */
  lemma ParseDatedId(year: string, month: string, day: string, slug: string, now: int)
    requires IsIdParts(year, month, day, slug)
    ensures IsDatedId(DatedId(year, month, day, slug))
    ensures var r := ParseBlogDate(DatedId(year, month, day, slug), now);
            r.year == year && r.month == month && r.day == day && r.slug == slug
            && r.date == IsoDateValue(year, month, day)
  {
    var id := DatedId(year, month, day, slug);
    assert id[..4] == year && id[5..7] == month && id[8..10] == day && id[11..] == slug;
  }

  /** `blogPostUrl(post)`. */
  function BlogPostUrl(post: ParsedBlogPost): string {
    "/blog/" + post.year + "/" + post.month + "/" + post.day + "/" + post.slug + "/"
  }

  /* ---------------------------------------------------------------------- */
  /* The collection                                                          */
  /* ---------------------------------------------------------------------- */

  /** The date fields of a parsed post. */
  function DateFields(p: ParsedBlogPost): BlogDate {
    BlogDate(p.date, p.year, p.month, p.day, p.slug)
  }

  /** `{ ...post, ...parseBlogDate(post.id) }`. */
  function ParsePost(post: CollectionEntry, now: int): (r: ParsedBlogPost)
    ensures r.id == post.id && r.data == post.data
    ensures DateFields(r) == ParseBlogDate(post.id, now)
  {
    var d := ParseBlogDate(post.id, now);
    ParsedBlogPost(post.id, post.data, d.date, d.year, d.month, d.day, d.slug)
  }

  /** `parseBlogPosts(posts)`: one parsed post per entry, in the same order. */
  function ParseBlogPosts(posts: seq<CollectionEntry>, now: int): (r: seq<ParsedBlogPost>)
    ensures |r| == |posts|
    ensures forall i | 0 <= i < |r| ::
              r[i].id == posts[i].id && r[i].data == posts[i].data && DateFields(r[i]) == ParseBlogDate(posts[i].id, now)
  {
    if posts == [] then [] else [ParsePost(posts[0], now)] + ParseBlogPosts(posts[1..], now)
  }

  /* ---------------------------------------------------------------------- */
  /* Sorting                                                                 */
  /* ---------------------------------------------------------------------- */

  /** Every post has a valid date. With an Invalid Date the comparator
      `b.date.getTime() - a.date.getTime()` yields NaN, the comparison is
      not consistent and the order `sort` produces is not defined. */
  predicate Dated(posts: seq<ParsedBlogPost>) {
    forall i | 0 <= i < |posts| :: posts[i].date.Some?
  }

  function Key(p: ParsedBlogPost): int
    requires p.date.Some?
  {
    p.date.value
  }

  /** Newest first. */
  predicate SortedDesc(posts: seq<ParsedBlogPost>)
    requires Dated(posts)
  {
    forall i, j | 0 <= i < j < |posts| :: Key(posts[i]) >= Key(posts[j])
  }

  /** The posts with time value `k`, in their order in `posts`. */
  function WithKey(posts: seq<ParsedBlogPost>, k: int): seq<ParsedBlogPost>
    requires Dated(posts)
  {
    if posts == [] then []
    else (if Key(posts[0]) == k then [posts[0]] else []) + WithKey(posts[1..], k)
  }

  /** Places `x` after every post at least as new, before the first older one. */
  function Insert(x: ParsedBlogPost, sorted: seq<ParsedBlogPost>): (r: seq<ParsedBlogPost>)
    requires x.date.Some? && Dated(sorted)
    ensures Dated(r) && multiset(r) == multiset(sorted) + multiset{x} && |r| == |sorted| + 1
  {
    if sorted == [] || Key(x) > Key(sorted[0]) then [x] + sorted
    else
      var r := [sorted[0]] + Insert(x, sorted[1..]);
      assert sorted == [sorted[0]] + sorted[1..];
      r
  }

  /** `[...posts].sort((a, b) => b.date.getTime() - a.date.getTime())`:
      a stable sort, newest first, of a copy. */
  function SortBlogPosts(posts: seq<ParsedBlogPost>): (r: seq<ParsedBlogPost>)
    requires Dated(posts)
    ensures Dated(r) && multiset(r) == multiset(posts) && |r| == |posts|
  {
    if posts == [] then []
    else
      var init := posts[..|posts| - 1];
      assert posts == init + [posts[|posts| - 1]];
      Insert(posts[|posts| - 1], SortBlogPosts(init))
  }

  lemma {:induction false} InsertSorted(x: ParsedBlogPost, sorted: seq<ParsedBlogPost>)
    requires x.date.Some? && Dated(sorted) && SortedDesc(sorted)
    ensures SortedDesc(Insert(x, sorted))
  {
    if sorted != [] && Key(x) <= Key(sorted[0]) {
      var rest := Insert(x, sorted[1..]);
      InsertSorted(x, sorted[1..]);
      assert forall j | 0 <= j < |rest| :: Key(rest[j]) <= Key(sorted[0]) by {
        forall j | 0 <= j < |rest| ensures Key(rest[j]) <= Key(sorted[0]) {
          assert rest[j] in multiset(rest);
          assert rest[j] in multiset(sorted[1..]) + multiset{x};
          if rest[j] != x {
            var k :| 0 <= k < |sorted[1..]| && sorted[1..][k] == rest[j];
            assert sorted[k + 1] == rest[j];
          }
        }
      }
    }
  }

  /** The result is newest first. */
  lemma {:induction false} SortSorted(posts: seq<ParsedBlogPost>)
    requires Dated(posts)
    ensures SortedDesc(SortBlogPosts(posts))
  {
    if posts != [] {
      SortSorted(posts[..|posts| - 1]);
      InsertSorted(posts[|posts| - 1], SortBlogPosts(posts[..|posts| - 1]));
    }
  }

  lemma {:induction false} WithKeyConcat(a: seq<ParsedBlogPost>, b: seq<ParsedBlogPost>, k: int)
    requires Dated(a) && Dated(b)
    ensures Dated(a + b) && WithKey(a + b, k) == WithKey(a, k) + WithKey(b, k)
  {
    if a != [] {
      assert (a + b)[1..] == a[1..] + b;
      WithKeyConcat(a[1..], b, k);
    } else {
      assert a + b == b;
    }
  }

  lemma {:induction false} NewerThanAll(x: ParsedBlogPost, sorted: seq<ParsedBlogPost>)
    requires x.date.Some? && Dated(sorted) && SortedDesc(sorted)
    requires sorted != [] ==> Key(x) > Key(sorted[0])
    ensures WithKey(sorted, Key(x)) == []
  {
    if sorted != [] {
      NewerThanAll(x, sorted[1..]);
    }
  }

  /** `x` comes after the posts of its own date that were already in place. */
  lemma {:induction false} InsertWithKey(x: ParsedBlogPost, sorted: seq<ParsedBlogPost>, k: int)
    requires x.date.Some? && Dated(sorted) && SortedDesc(sorted)
    ensures WithKey(Insert(x, sorted), k) == WithKey(sorted, k) + (if Key(x) == k then [x] else [])
  {
    if sorted == [] || Key(x) > Key(sorted[0]) {
      var r := [x] + sorted;
      assert r[1..] == sorted;
      if Key(x) == k {
        NewerThanAll(x, sorted);
      }
    } else {
      var r := [sorted[0]] + Insert(x, sorted[1..]);
      assert r[1..] == Insert(x, sorted[1..]);
      InsertWithKey(x, sorted[1..], k);
    }
  }

  /** Posts of the same date keep their relative order (a stable sort). */
  lemma {:induction false} SortStable(posts: seq<ParsedBlogPost>, k: int)
    requires Dated(posts)
    ensures WithKey(SortBlogPosts(posts), k) == WithKey(posts, k)
  {
    if posts != [] {
      var init := posts[..|posts| - 1];
      var last := posts[|posts| - 1];
      assert posts == init + [last];
      assert SortBlogPosts(posts) == Insert(last, SortBlogPosts(init));
      SortStable(init, k);
      SortSorted(init);
      InsertWithKey(last, SortBlogPosts(init), k);
      WithKeyConcat(init, [last], k);
      assert [last][1..] == [];
      assert WithKey([last], k) == (if Key(last) == k then [last] else []);
    }
  }

  lemma {:induction false} NewestFirst(x: ParsedBlogPost, sorted: seq<ParsedBlogPost>)
    requires Dated(sorted) && SortedDesc(sorted) && x in multiset(sorted)
    ensures x.date.Some? && Key(x) <= Key(sorted[0])
  {
    var i :| 0 <= i < |sorted| && sorted[i] == x;
  }

  /** Removing the same first post from two arrangements of the same posts. */
  lemma SameTails(a: seq<ParsedBlogPost>, b: seq<ParsedBlogPost>)
    requires a != [] && b != [] && a[0] == b[0] && Dated(a) && Dated(b)
    requires multiset(a) == multiset(b)
    requires forall k :: WithKey(a, k) == WithKey(b, k)
    ensures multiset(a[1..]) == multiset(b[1..])
    ensures forall k :: WithKey(a[1..], k) == WithKey(b[1..], k)
  {
    TailMultiset(a);
    TailMultiset(b);
    forall k ensures WithKey(a[1..], k) == WithKey(b[1..], k) {
      SameTailWithKey(a, b, k);
    }
  }

  lemma TailMultiset(a: seq<ParsedBlogPost>)
    requires a != []
    ensures multiset(a[1..]) == multiset(a) - multiset{a[0]}
  {
    assert a == [a[0]] + a[1..];
  }

  /** With the same first post, equal `WithKey` lists stay equal without it. */
  lemma SameTailWithKey(a: seq<ParsedBlogPost>, b: seq<ParsedBlogPost>, k: int)
    requires a != [] && b != [] && a[0] == b[0] && Dated(a) && Dated(b)
    requires WithKey(a, k) == WithKey(b, k)
    ensures WithKey(a[1..], k) == WithKey(b[1..], k)
  {
    var head := if Key(a[0]) == k then [a[0]] else [];
    assert WithKey(a, k) == head + WithKey(a[1..], k);
    assert WithKey(b, k) == head + WithKey(b[1..], k);
    assert WithKey(a[1..], k) == WithKey(a, k)[|head|..];
  }

  /** Two newest-first orders of the same posts that keep the same order
      among posts of equal date are the same order. */
  lemma {:induction false} StableOrderUnique(a: seq<ParsedBlogPost>, b: seq<ParsedBlogPost>)
    requires Dated(a) && Dated(b) && SortedDesc(a) && SortedDesc(b)
    requires multiset(a) == multiset(b)
    requires forall k :: WithKey(a, k) == WithKey(b, k)
    ensures a == b
    decreases |a|
  {
    if a != [] {
      assert |b| == |multiset(b)| == |multiset(a)| == |a|;
      assert a[0] in multiset(b) && b[0] in multiset(a);
      NewestFirst(a[0], b);
      NewestFirst(b[0], a);
      var k := Key(a[0]);
      assert WithKey(a, k) == WithKey(b, k);
      assert WithKey(a, k)[0] == a[0] && WithKey(b, k)[0] == b[0];
      SameTails(a, b);
      StableOrderUnique(a[1..], b[1..]);
    }
  }

  /** Sorted, a permutation and stable: these determine the result. */
  lemma SortUnique(posts: seq<ParsedBlogPost>, r: seq<ParsedBlogPost>)
    requires Dated(posts) && Dated(r) && SortedDesc(r)
    requires multiset(r) == multiset(posts)
    requires forall k :: WithKey(r, k) == WithKey(posts, k)
    ensures r == SortBlogPosts(posts)
  {
    var s := SortBlogPosts(posts);
    SortSorted(posts);
    forall k ensures WithKey(r, k) == WithKey(s, k) {
      SortStable(posts, k);
    }
    StableOrderUnique(r, s);
  }

  /* ---------------------------------------------------------------------- */
  /* URLs                                                                    */
  /* ---------------------------------------------------------------------- */

  /** The identifier a dated post's URL stands for. */
  function IdOfUrl(url: string): string
    requires |url| >= 18
  {
    url[6..10] + "-" + url[11..13] + "-" + url[14..16] + "-" + url[17..|url| - 1]
  }

  /** A post with a dated identifier can be found again from its URL. */
  lemma UrlRoundTrip(post: CollectionEntry, now: int)
    requires IsDatedId(post.id)
    ensures |BlogPostUrl(ParsePost(post, now))| >= 18
    ensures IdOfUrl(BlogPostUrl(ParsePost(post, now))) == post.id
  {
    var p := ParsePost(post, now);
    var url := BlogPostUrl(p);
    assert url == "/blog/" + p.year + "/" + p.month + "/" + p.day + "/" + p.slug + "/";
    assert url[6..10] == p.year && url[11..13] == p.month && url[14..16] == p.day;
    assert url[17..|url| - 1] == p.slug;
  }

  /** So two posts with dated identifiers and the same URL have the same identifier. */
  lemma UrlInjective(a: CollectionEntry, b: CollectionEntry, now: int)
    requires IsDatedId(a.id) && IsDatedId(b.id)
    requires BlogPostUrl(ParsePost(a, now)) == BlogPostUrl(ParsePost(b, now))
    ensures a.id == b.id
  {
    UrlRoundTrip(a, now);
    UrlRoundTrip(b, now);
  }

  /** The fallback puts an undated post at the URL of a dated one. */
  lemma FallbackCollision(data: BlogData, now: int)
    ensures var undated := CollectionEntry("a", data);
            var dated := CollectionEntry("2024-01-01-a", data);
            undated.id != dated.id && BlogPostUrl(ParsePost(undated, now)) == BlogPostUrl(ParsePost(dated, now))
  {
    ParseDatedId("2024", "01", "01", "a", now);
    assert DatedId("2024", "01", "01", "a") == "2024-01-01-a";
  }

  /** The URL of a post with a dated identifier is made of the identifier's parts. */
  lemma UrlOfDatedId(year: string, month: string, day: string, slug: string, data: BlogData, now: int)
    requires IsIdParts(year, month, day, slug)
    ensures BlogPostUrl(ParsePost(CollectionEntry(DatedId(year, month, day, slug), data), now))
            == "/blog/" + year + "/" + month + "/" + day + "/" + slug + "/"
  {
    ParseDatedId(year, month, day, slug, now);
  }

  lemma UrlExample(data: BlogData, now: int)
    ensures BlogPostUrl(ParsePost(CollectionEntry("2024-06-20-version-4-0-released", data), now))
            == "/blog/2024/06/20/version-4-0-released/"
  {
    ExampleParts();
    ExampleId();
    ExampleUrl();
    UrlOfDatedId("2024", "06", "20", "version-4-0-released", data, now);
  }

  lemma ExampleParts()
    ensures IsIdParts("2024", "06", "20", "version-4-0-released")
  {
    var slug := "version-4-0-released";
    assert forall i | 0 <= i < |slug| :: !IsLineTerminator(slug[i]);
  }

  lemma ExampleId()
    ensures DatedId("2024", "06", "20", "version-4-0-released") == "2024-06-20-version-4-0-released"
  {
  }

  lemma ExampleUrl()
    ensures "/blog/" + "2024" + "/" + "06" + "/" + "20" + "/" + "version-4-0-released" + "/"
            == "/blog/2024/06/20/version-4-0-released/"
  {
  }
}
