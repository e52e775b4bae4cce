/** The post lists of the frontend, in `posts-list-client.tsx` and on the home page: posts newest
    published first with an unset date counting as time 0, the displayed date, and the preview
    image.  Both files carry the same code; one definition serves both.  `new Date(iso).getTime()`
    and `toLocaleDateString` are parameters. */
module FrontendPostsList {
  import opened Common
  import opened Sorting
  import opened FrontendMarkdown

  /** `Post` as the API returns it. */
  datatype ListedPost = ListedPost(id: string, slug: string, title: string, content: string,
                                   summary: Option<string>, publishedAt: Option<string>,
                                   createdAt: string, updatedAt: string)

  /** The comparator's key: the publication time, or 0 when the date is null or empty. */
  function PublishedTime(timeOf: string -> int): ListedPost -> int {
    (p: ListedPost) => if Truthy(p.publishedAt) then timeOf(p.publishedAt.value) else 0
  }

  function PublishedKey(timeOf: string -> int): ListedPost -> Key {
    (p: ListedPost) => IntKey(PublishedTime(timeOf)(p))
  }

  /** `posts.slice().sort((a, b) => db - da)`: a sorted copy, the argument left as it is. */
  function SortedPosts(posts: seq<ListedPost>, timeOf: string -> int): (r: seq<ListedPost>)
    ensures multiset(r) == multiset(posts)
    ensures |r| == |posts|
    ensures forall i, j :: 0 <= i < j < |r| ==> PublishedTime(timeOf)(r[j]) <= PublishedTime(timeOf)(r[i])
  {
    var r := SortBy(posts, PublishedKey(timeOf), true);
    assert |r| == |multiset(r)|;
    assert forall i, j :: 0 <= i < j < |r| ==> PublishedTime(timeOf)(r[j]) <= PublishedTime(timeOf)(r[i]) by {
      forall i, j | 0 <= i < j < |r| ensures PublishedTime(timeOf)(r[j]) <= PublishedTime(timeOf)(r[i]) {
        assert InOrder(PublishedKey(timeOf)(r[i]), PublishedKey(timeOf)(r[j]), true);
      }
    }
    r
  }

  /** The home page sorts the query's data, or nothing while there is none. */
  function HomePosts(data: Option<seq<ListedPost>>, timeOf: string -> int): (r: seq<ListedPost>)
    ensures data.None? ==> r == []
    ensures data.Some? ==> r == SortedPosts(data.value, timeOf)
  {
    SortedPosts(data.GetOr([]), timeOf)
  }

  /** The sorted list holds the same posts, same number of times each. */
  lemma SortedPostsSameMembers(posts: seq<ListedPost>, timeOf: string -> int, p: ListedPost)
    ensures p in SortedPosts(posts, timeOf) <==> p in posts
  {
    var r := SortedPosts(posts, timeOf);
    assert p in r <==> p in multiset(r);
    assert p in posts <==> p in multiset(posts);
  }

  /** An undated post comes after every post dated after 1970. */
  lemma UndatedAfterDated(posts: seq<ListedPost>, timeOf: string -> int, i: int, j: int)
    requires var r := SortedPosts(posts, timeOf);
             0 <= i < |r| && 0 <= j < |r| && !Truthy(r[i].publishedAt)
             && Truthy(r[j].publishedAt) && timeOf(r[j].publishedAt.value) > 0
    ensures j < i
  {
    var r := SortedPosts(posts, timeOf);
    assert PublishedTime(timeOf)(r[i]) == 0;
  }

  /** `formatDate`: empty for a null or empty date, the locale's rendering otherwise. */
  function FormatDate(iso: Option<string>, localeDate: string -> string): (r: string)
    ensures !Truthy(iso) ==> r == ""
    ensures Truthy(iso) ==> r == localeDate(iso.value)
  {
    if !Truthy(iso) then "" else localeDate(iso.value)
  }

  /** The preview `PostItem` shows: the first image's URL, unless there is none or it is empty. */
  function PreviewImage(post: ListedPost): (r: Option<string>)
    ensures r.Some? ==> r.value != "" && ExtractFirstImage(post.content) == r
    ensures r.None? ==> !Truthy(ExtractFirstImage(post.content))
  {
    var img := ExtractFirstImage(post.content);
    if Truthy(img) then img else None
  }

  /** "![]()" has an image with an empty URL, which is not shown. */
  lemma EmptyUrlNotShown(post: ListedPost)
    requires post.content == "![]()"
    ensures ExtractFirstImage(post.content) == Some("") && PreviewImage(post).None?
  {
    var s := post.content;
    assert UrlCloses(s, 4, 4);
    assert MatchAt(s, 0, 2, 4);
    assert FirstMatch(s, 0, 2, 4);
    ExtractFindsFirstMatch(s, 0, 2, 4);
    assert s[4..4] == "";
  }
}
