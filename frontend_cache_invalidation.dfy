/** `cache-invalidation.ts`: the server actions that revalidate Next.js cache tags and page paths
    after a post is created, updated or deleted.  Next.js's cache is a log of the revalidations
    asked for; whether a call throws, and with what message, is a parameter.  Each action stops at
    the first call that throws and rethrows its error. */
module FrontendCacheInvalidation {
  import opened Common

  /** `revalidateTag(name)` or `revalidatePath(path, 'page')`. */
  datatype Revalidation = Tag(name: string) | PagePath(path: string)

  const POSTS_LIST: string := "posts-list"
  const POST: string := "post"
  const HOME: string := "/"
  const ANY_POST_PAGE: string := "/post/[slug]"

  /** The calls of `invalidatePostsList`, in order. */
  function PostsListCalls(): seq<Revalidation> {
    [Tag(POSTS_LIST), PagePath(HOME)]
  }

  /** The calls of `invalidatePost(slug)`, in order. */
  function PostCalls(slug: string): seq<Revalidation> {
    [Tag(POST), Tag("post-" + slug), PagePath("/post/" + slug), Tag(POSTS_LIST), PagePath(HOME)]
  }

  /** The calls of `invalidateAllPosts`, in order. */
  function AllPostsCalls(): seq<Revalidation> {
    [Tag(POSTS_LIST), Tag(POST), PagePath(HOME), PagePath(ANY_POST_PAGE)]
  }

  /** The calls `invalidateCacheAfterMutation(action, slug)` makes, or the error it throws for an
      action it does not know. */
  function MutationCalls(action: string, slug: Option<string>): (r: Result<seq<Revalidation>>)
    ensures r.Err? <==> action !in {"create", "update", "delete"}
    ensures r.Err? ==> r.message == "Unknown action: " + action
  {
    if action == "create" then Ok(PostsListCalls())
    else if action == "update" then
      if Truthy(slug) then Ok(PostCalls(slug.value)) else Ok(AllPostsCalls())
    else if action == "delete" then
      if Truthy(slug) then Ok(PostCalls(slug.value) + PostsListCalls()) else Ok(PostsListCalls())
    else Err("Unknown action: " + action)
  }

  /** The calls that take effect: those before the first one that throws. */
  function Performed(calls: seq<Revalidation>, throws: Revalidation -> Option<string>): (r: seq<Revalidation>)
    ensures |r| <= |calls| && r == calls[..|r|]
    ensures forall i :: 0 <= i < |r| ==> throws(r[i]).None?
    ensures |r| < |calls| ==> throws(calls[|r|]).Some?
  {
    if calls == [] then []
    else if throws(calls[0]).Some? then []
    else [calls[0]] + Performed(calls[1..], throws)
  }

  /** The error of the first call that throws, if any. */
  function FirstError(calls: seq<Revalidation>, throws: Revalidation -> Option<string>): (e: Option<string>)
    ensures e.None? <==> forall i :: 0 <= i < |calls| ==> throws(calls[i]).None?
    ensures e.None? <==> Performed(calls, throws) == calls
    ensures e.Some? ==> e == throws(calls[|Performed(calls, throws)|])
  {
    if calls == [] then None
    else if throws(calls[0]).Some? then throws(calls[0])
    else
      var e := FirstError(calls[1..], throws);
      assert e.None? <==> forall i :: 0 <= i < |calls| ==> throws(calls[i]).None? by {
        if e.None? {
          forall i | 0 <= i < |calls| ensures throws(calls[i]).None? {
            if i > 0 { assert calls[i] == calls[1..][i - 1]; }
          }
        } else {
          var k := |Performed(calls[1..], throws)|;
          assert calls[k + 1] == calls[1..][k];
        }
      }
      e
  }

  /** Running two call lists one after the other performs the first and, when it did not throw,
      the second. */
  lemma {:induction false} PerformedAppend(a: seq<Revalidation>, b: seq<Revalidation>, throws: Revalidation -> Option<string>)
    ensures Performed(a + b, throws) == if FirstError(a, throws).Some? then Performed(a, throws) else a + Performed(b, throws)
    ensures FirstError(a + b, throws) == if FirstError(a, throws).Some? then FirstError(a, throws) else FirstError(b, throws)
    decreases |a|
  {
    if a == [] {
      assert a + b == b;
    } else {
      assert (a + b)[0] == a[0];
      assert (a + b)[1..] == a[1..] + b;
      PerformedAppend(a[1..], b, throws);
    }
  }

  /** The calls performed are exactly those before the first that throws. */
  lemma PerformedIs(calls: seq<Revalidation>, throws: Revalidation -> Option<string>, i: nat)
    requires i <= |calls| && forall j :: 0 <= j < i ==> throws(calls[j]).None?
    requires i < |calls| ==> throws(calls[i]).Some?
    ensures Performed(calls, throws) == calls[..i]
    ensures FirstError(calls, throws) == if i == |calls| then None else throws(calls[i])
  {
    var r := Performed(calls, throws);
    assert |r| <= i ==> |r| == i;
  }

  /** The first call of `rest` succeeds: it joins the log, and the run goes on with the others. */
  lemma Step(log: seq<Revalidation>, rest: seq<Revalidation>, throws: Revalidation -> Option<string>)
    requires rest != [] && throws(rest[0]).None?
    ensures log + Performed(rest, throws) == (log + [rest[0]]) + Performed(rest[1..], throws)
    ensures FirstError(rest, throws) == FirstError(rest[1..], throws)
  {
    var tail := Performed(rest[1..], throws);
    assert Performed(rest, throws) == [rest[0]] + tail;
    assert log + ([rest[0]] + tail) == (log + [rest[0]]) + tail;
  }

  /** The first call of `rest` throws: nothing more is performed and its error is the result. */
  lemma Stop(log: seq<Revalidation>, rest: seq<Revalidation>, throws: Revalidation -> Option<string>)
    requires rest != [] && throws(rest[0]).Some?
    ensures log + Performed(rest, throws) == log
    ensures FirstError(rest, throws) == throws(rest[0])
  {
    assert log + [] == log;
  }

  /** What Next.js has been asked to revalidate so far. */
  class RevalidationLog {
    var log: seq<Revalidation>

    constructor ()
      ensures log == []
    {
      log := [];
    }

    /** One `revalidateTag` or `revalidatePath` call. */
    method Revalidate(r: Revalidation, throws: Revalidation -> Option<string>) returns (err: Option<string>)
      modifies this
      ensures err == throws(r)
      ensures log == if err.None? then old(log) + [r] else old(log)
    {
      err := throws(r);
      if err.None? {
        log := log + [r];
      }
    }

    /** `invalidatePostsList` */
    method InvalidatePostsList(throws: Revalidation -> Option<string>) returns (err: Option<string>)
      modifies this
      ensures log == old(log) + Performed(PostsListCalls(), throws)
      ensures err == FirstError(PostsListCalls(), throws)
    {
      var rest := PostsListCalls();
      err := Revalidate(rest[0], throws);
      if err.Some? { Stop(old(log), rest, throws); return; }
      Step(old(log), rest, throws);
      rest := rest[1..];
      ghost var before := log;
      err := Revalidate(rest[0], throws);
      if err.Some? { Stop(before, rest, throws); return; }
      Step(before, rest, throws);
      assert rest[1..] == [];
    }

    /** `invalidatePost(slug)` */
    method InvalidatePost(slug: string, throws: Revalidation -> Option<string>) returns (err: Option<string>)
      modifies this
      ensures log == old(log) + Performed(PostCalls(slug), throws)
      ensures err == FirstError(PostCalls(slug), throws)
    {
      var rest := PostCalls(slug);
      err := Revalidate(rest[0], throws);
      if err.Some? { Stop(old(log), rest, throws); return; }
      Step(old(log), rest, throws);
      rest := rest[1..];
      ghost var before := log;
      err := Revalidate(rest[0], throws);
      if err.Some? { Stop(before, rest, throws); return; }
      Step(before, rest, throws);
      rest := rest[1..];
      before := log;
      err := Revalidate(rest[0], throws);
      if err.Some? { Stop(before, rest, throws); return; }
      Step(before, rest, throws);
      rest := rest[1..];
      before := log;
      err := Revalidate(rest[0], throws);
      if err.Some? { Stop(before, rest, throws); return; }
      Step(before, rest, throws);
      rest := rest[1..];
      before := log;
      err := Revalidate(rest[0], throws);
      if err.Some? { Stop(before, rest, throws); return; }
      Step(before, rest, throws);
      assert rest[1..] == [];
    }

    /** `invalidateAllPosts` */
    method InvalidateAllPosts(throws: Revalidation -> Option<string>) returns (err: Option<string>)
      modifies this
      ensures log == old(log) + Performed(AllPostsCalls(), throws)
      ensures err == FirstError(AllPostsCalls(), throws)
    {
      var rest := AllPostsCalls();
      err := Revalidate(rest[0], throws);
      if err.Some? { Stop(old(log), rest, throws); return; }
      Step(old(log), rest, throws);
      rest := rest[1..];
      ghost var before := log;
      err := Revalidate(rest[0], throws);
      if err.Some? { Stop(before, rest, throws); return; }
      Step(before, rest, throws);
      rest := rest[1..];
      before := log;
      err := Revalidate(rest[0], throws);
      if err.Some? { Stop(before, rest, throws); return; }
      Step(before, rest, throws);
      rest := rest[1..];
      before := log;
      err := Revalidate(rest[0], throws);
      if err.Some? { Stop(before, rest, throws); return; }
      Step(before, rest, throws);
      assert rest[1..] == [];
    }

    /** `invalidateCacheAfterMutation(action, slug)`: the dispatch on the action. */
    method InvalidateCacheAfterMutation(action: string, slug: Option<string>, throws: Revalidation -> Option<string>)
      returns (err: Option<string>)
      modifies this
      ensures MutationCalls(action, slug).Err? ==>
                log == old(log) && err == Some(MutationCalls(action, slug).message)
      ensures MutationCalls(action, slug).Ok? ==>
                && log == old(log) + Performed(MutationCalls(action, slug).value, throws)
                && err == FirstError(MutationCalls(action, slug).value, throws)
    {
      if action == "create" {
        err := InvalidatePostsList(throws);
      } else if action == "update" {
        if Truthy(slug) {
          err := InvalidatePost(slug.value, throws);
        } else {
          err := InvalidateAllPosts(throws);
        }
      } else if action == "delete" {
        if Truthy(slug) {
          PerformedAppend(PostCalls(slug.value), PostsListCalls(), throws);
          err := InvalidatePost(slug.value, throws);
          if err.Some? { return; }
        }
        err := InvalidatePostsList(throws);
      } else {
        err := Some("Unknown action: " + action);
      }
    }
  }

  /** Every known action revalidates the posts list and the home page; an update without a slug
      also revalidates every post page. */
  lemma KnownActionsRefreshList(action: string, slug: Option<string>)
    requires action in {"create", "update", "delete"}
    ensures Tag(POSTS_LIST) in MutationCalls(action, slug).value
    ensures PagePath(HOME) in MutationCalls(action, slug).value
    ensures action == "update" && !Truthy(slug) ==> PagePath(ANY_POST_PAGE) in MutationCalls(action, slug).value
  {
    var calls := MutationCalls(action, slug).value;
    if action == "delete" && Truthy(slug) {
      assert calls[3] == Tag(POSTS_LIST) && calls[4] == PagePath(HOME);
    }
  }

  /** A known action whose calls all succeed ends with the posts list and the home page
      revalidated, and the post's own tag and page too when a slug is given to an update or a
      delete. */
  lemma NoErrorRevalidatesPost(action: string, slug: string, throws: Revalidation -> Option<string>)
    requires action in {"update", "delete"} && slug != ""
    requires forall r :: throws(r).None?
    ensures var calls := MutationCalls(action, Some(slug)).value;
            && Performed(calls, throws) == calls
            && Tag("post-" + slug) in calls && PagePath("/post/" + slug) in calls && Tag(POSTS_LIST) in calls
  {
    var calls := MutationCalls(action, Some(slug)).value;
    assert calls[1] == Tag("post-" + slug) && calls[2] == PagePath("/post/" + slug) && calls[3] == Tag(POSTS_LIST);
  }

  /** An error is never swallowed: some call throws exactly when the action reports an error,
      and the error reported is the first one thrown. */
  lemma ErrorsPropagate(action: string, slug: Option<string>, throws: Revalidation -> Option<string>)
    requires action in {"create", "update", "delete"}
    ensures var calls := MutationCalls(action, slug).value;
            && (FirstError(calls, throws).Some? <==> exists i :: 0 <= i < |calls| && throws(calls[i]).Some?)
            && (FirstError(calls, throws).Some? ==> FirstError(calls, throws) == throws(calls[|Performed(calls, throws)|]))
  {
  }
}
