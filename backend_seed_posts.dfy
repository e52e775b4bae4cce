/** `SeedPostsService.seedSamplePosts`: four sample posts, three published and one draft, written
    only into an empty table.  The posts' markdown bodies, the ids the table generates and the
    clock are parameters. */
module BackendSeedPosts {
  import opened Common
  import opened Sorting
  import opened BackendPosts

  const DAY_MS: int := 86400000

  const SAMPLE_SLUGS: seq<string> := ["welcome-to-my-blog", "getting-started-with-nextjs-15",
                                      "performance-optimization-tips", "draft-future-post-ideas"]
  const SAMPLE_TITLES: seq<string> := ["Welcome to My Blog", "Getting Started with Next.js 15",
                                       "Performance Optimization Tips", "Draft: Future Post Ideas"]
  const SAMPLE_SUMMARIES: seq<string> := [
    "An introduction to my blog and what you can expect to find here.",
    "Learn about the new features in Next.js 15 and how to get started.",
    "Essential tips for optimizing web application performance.",
    "A draft post with future content ideas."]

  /** The `i`-th sample: published now, a day ago, two days ago, and a draft. */
  function SamplePost(i: nat, id: string, content: string, now: int): (r: Post)
    requires i < 4
    ensures r.slug == SAMPLE_SLUGS[i] && r.id == id
    ensures IsPublished(r) <==> i < 3
    ensures IsPublished(r) ==> r.publishedAt.value == now - i * DAY_MS
  {
    Post(id, SAMPLE_SLUGS[i], SAMPLE_TITLES[i], content, Some(SAMPLE_SUMMARIES[i]),
         if i < 3 then Some(now - i * DAY_MS) else None, now, now)
  }

  /** The first `n` samples in the order they are saved. */
  function SampleRows(ids: seq<string>, contents: seq<string>, now: int, n: nat): (r: seq<Post>)
    requires n <= 4 && |ids| == 4 && |contents| == 4
    ensures |r| == n
    ensures forall i :: 0 <= i < n ==> r[i] == SamplePost(i, ids[i], contents[i], now)
  {
    if n == 0 then [] else SampleRows(ids, contents, now, n - 1) + [SamplePost(n - 1, ids[n - 1], contents[n - 1], now)]
  }

  predicate DistinctIds(ids: seq<string>) {
    forall i, j :: 0 <= i < j < |ids| ==> ids[i] != ids[j]
  }

  /** The sample slugs are pairwise different. */
  lemma SampleSlugsDistinct()
    ensures forall i, j :: 0 <= i < j < 4 ==> SAMPLE_SLUGS[i] != SAMPLE_SLUGS[j]
  {
    assert SAMPLE_SLUGS[0][0] == 'w' && SAMPLE_SLUGS[1][0] == 'g';
    assert SAMPLE_SLUGS[2][0] == 'p' && SAMPLE_SLUGS[3][0] == 'd';
  }

  /** With distinct ids each sample is accepted by the table that holds the earlier ones. */
  lemma SampleInsertAccepted(ids: seq<string>, contents: seq<string>, now: int, n: nat)
    requires n < 4 && |ids| == 4 && |contents| == 4 && DistinctIds(ids)
    ensures InsertResult(SampleRows(ids, contents, now, n), SamplePost(n, ids[n], contents[n], now)).Ok?
  {
    SampleSlugsDistinct();
  }

  /** `seedSamplePosts`: a table with any row is left alone; otherwise the samples are saved one at
      a time, and the first refused save ends the seed with the rows saved so far. */
  method SeedSamplePosts(table: PostTable, ids: seq<string>, contents: seq<string>, now: int)
    returns (err: Option<string>)
    requires |ids| == 4 && |contents| == 4
    modifies table
    ensures |old(table.posts)| > 0 ==> err.None? && table.posts == old(table.posts)
    ensures |old(table.posts)| == 0 ==>
              && |table.posts| <= 4 && table.posts == SampleRows(ids, contents, now, |table.posts|)
              && (err.None? ==> |table.posts| == 4)
              && (DistinctIds(ids) ==> err.None?)
  {
    if |table.posts| > 0 {
      return None;
    }
    var i := 0;
    while i < 4
      invariant 0 <= i <= 4
      invariant table.posts == SampleRows(ids, contents, now, i)
    {
      var p := SamplePost(i, ids[i], contents[i], now);
      if DistinctIds(ids) {
        SampleInsertAccepted(ids, contents, now, i);
      }
      err := table.Insert(p);
      if err.Some? {
        return;
      }
      i := i + 1;
    }
    err := None;
  }

  /** After a seed of an empty table the published list holds the first three samples and not
      the draft, and every sample is findable by its slug. */
  lemma SeededListing(ids: seq<string>, contents: seq<string>, now: int)
    requires |ids| == 4 && |contents| == 4
    ensures var rows := SampleRows(ids, contents, now, 4);
            && (forall p :: p in Published(rows) <==> exists i :: 0 <= i < 3 && p == rows[i])
            && (forall i :: 0 <= i < 4 ==> PostWithSlug(rows, SAMPLE_SLUGS[i]) == Some(rows[i]))
  {
    var rows := SampleRows(ids, contents, now, 4);
    forall k | 0 <= k < 4 ensures rows[k].slug == SAMPLE_SLUGS[k] && (IsPublished(rows[k]) <==> k < 3) {
      assert rows[k] == SamplePost(k, ids[k], contents[k], now);
    }
    SeededPublished(rows);
    forall i | 0 <= i < 4 ensures PostWithSlug(rows, SAMPLE_SLUGS[i]) == Some(rows[i]) {
      SeededFindable(rows, i);
    }
  }

  /** Four rows of which the first three are published list exactly those three. */
  lemma SeededPublished(rows: seq<Post>)
    requires |rows| == 4 && forall k :: 0 <= k < 4 ==> (IsPublished(rows[k]) <==> k < 3)
    ensures forall p :: p in Published(rows) <==> exists i :: 0 <= i < 3 && p == rows[i]
  {
    forall p ensures p in Published(rows) <==> exists i :: 0 <= i < 3 && p == rows[i] {
      if p in rows {
        var k :| 0 <= k < 4 && rows[k] == p;
      }
    }
  }

  /** Rows carrying the four sample slugs in order are each found by their slug. */
  lemma SeededFindable(rows: seq<Post>, i: int)
    requires |rows| == 4 && forall k :: 0 <= k < 4 ==> rows[k].slug == SAMPLE_SLUGS[k]
    requires 0 <= i < 4
    ensures PostWithSlug(rows, SAMPLE_SLUGS[i]) == Some(rows[i])
  {
    SampleSlugsDistinct();
    var r := PostWithSlug(rows, SAMPLE_SLUGS[i]);
    assert rows[i].slug == SAMPLE_SLUGS[i];
    var k :| 0 <= k < 4 && rows[k] == r.value;
    assert rows[k].slug == SAMPLE_SLUGS[k];
  }
}
