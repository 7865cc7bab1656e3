/**
 * `src/pages/feed.xml.ts`: the RSS items. The endpoint derives each post's
 * date from its identifier with its own copy of the code in
 * `parseBlogDate`, sorts newest first with the comparator of
 * `sortBlogPosts`, and makes one item per post.
 */
module Feed {
  import opened Wrappers
  import opened Strings
  import opened Calendar
  import opened Blog

  /** An RSS item; `pubDate` is a time value in milliseconds. */
  datatype FeedItem = FeedItem(title: string, pubDate: int, description: string, link: string)

  /** The endpoint's own derivation of a post's date fields. */
  function FeedPost(post: CollectionEntry, now: int): ParsedBlogPost {
    var id := post.id;
    if IsDatedId(id) then
      ParsedBlogPost(id, post.data, IsoDateValue(id[..4], id[5..7], id[8..10]), id[..4], id[5..7], id[8..10], id[11..])
    else
      ParsedBlogPost(id, post.data, Some(now), "2024", "01", "01", id)
  }

  /** The copy derives exactly what `parseBlogDate` does, fallback included. */
  lemma FeedPostIsParsePost(post: CollectionEntry, now: int)
    ensures FeedPost(post, now) == ParsePost(post, now)
  {
  }

  function FeedPosts(posts: seq<CollectionEntry>, now: int): (r: seq<ParsedBlogPost>)
    ensures |r| == |posts| && forall i | 0 <= i < |r| :: r[i] == FeedPost(posts[i], now)
  {
    if posts == [] then [] else [FeedPost(posts[0], now)] + FeedPosts(posts[1..], now)
  }

  lemma FeedPostsAreParsed(posts: seq<CollectionEntry>, now: int)
    ensures FeedPosts(posts, now) == ParseBlogPosts(posts, now)
  {
    var a, b := FeedPosts(posts, now), ParseBlogPosts(posts, now);
    forall i | 0 <= i < |a| ensures a[i] == b[i] {
      FeedPostIsParsePost(posts[i], now);
    }
  }

  /** One item: `description` is `''` for a post without one. */
  function Item(post: ParsedBlogPost): FeedItem
    requires post.date.Some?
  {
    var description := match post.data.description case Some(d) => d case None => "";
    FeedItem(post.data.title, post.date.value, description, "/blog/" + post.year + "/" + post.month + "/" + post.day + "/" + post.slug + "/")
  }

  function Items(sorted: seq<ParsedBlogPost>): (r: seq<FeedItem>)
    requires Dated(sorted)
    ensures |r| == |sorted| && forall i | 0 <= i < |r| :: r[i] == Item(sorted[i])
  {
    if sorted == [] then [] else [Item(sorted[0])] + Items(sorted[1..])
  }

  /** Every derived date is valid, which the sort needs. */
  predicate FeedDated(posts: seq<CollectionEntry>, now: int) {
    forall i | 0 <= i < |posts| :: FeedPost(posts[i], now).date.Some?
  }

  /** The items `GET` hands to `rss`. */
  function FeedItems(posts: seq<CollectionEntry>, now: int): (r: seq<FeedItem>)
    requires FeedDated(posts, now)
    ensures |r| == |posts|
  {
    Items(SortBlogPosts(FeedPosts(posts, now)))
  }

  /** Each item is the post in the same place of the blog's own sorted list:
      its title, its date, its description or `''`, and its `blogPostUrl`. */
  lemma FeedFollowsBlogOrder(posts: seq<CollectionEntry>, now: int, i: nat)
    requires FeedDated(posts, now) && i < |posts|
    ensures Dated(ParseBlogPosts(posts, now))
    ensures var sorted := SortBlogPosts(ParseBlogPosts(posts, now));
            var item := FeedItems(posts, now)[i];
            && item.link == BlogPostUrl(sorted[i])
            && item.title == sorted[i].data.title
            && item.pubDate == sorted[i].date.value
            && item.description == (if sorted[i].data.description.Some? then sorted[i].data.description.value else "")
  {
    FeedPostsAreParsed(posts, now);
  }

  /** Items come newest first. */
  lemma FeedNewestFirst(posts: seq<CollectionEntry>, now: int)
    requires FeedDated(posts, now)
    ensures var items := FeedItems(posts, now);
            forall i, j | 0 <= i < j < |items| :: items[i].pubDate >= items[j].pubDate
  {
    SortSorted(FeedPosts(posts, now));
  }
}
