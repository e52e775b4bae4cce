/** The admin "New Post" page: the form's zod schema, the image insertion that the uploader
    triggers, and the body the form sends to `POST /admin/posts`. */
module FrontendNewPost {
  import opened Common
  import opened BackendPosts
  import opened BackendPostsService
  import opened BackendPostDtos
  import opened FrontendMarkdown

  /** The form's values.  Registered text inputs always hold a string; `content` is read back
      with `watch`, which gives undefined before the field has a value. */
  datatype FormValues = FormValues(title: string, slug: string, content: Option<string>,
                                   summary: Option<string>, publishedAt: Option<string>)

  /** JavaScript's `length`: UTF-16 code units, two for a character outside the BMP. */
  function Utf16Length(s: string): (n: nat)
    ensures |s| <= n <= 2 * |s|
    ensures (forall i :: 0 <= i < |s| ==> s[i] as int < 0x10000) ==> n == |s|
  {
    if s == [] then 0 else (if s[0] as int >= 0x10000 then 2 else 1) + Utf16Length(s[1..])
  }

  /** `schema`: title and slug at least 3 long, content at least 1; summary and date optional. */
  predicate SchemaValid(v: FormValues) {
    && Utf16Length(v.title) >= 3
    && Utf16Length(v.slug) >= 3
    && v.content.Some? && Utf16Length(v.content.value) >= 1
  }

  /** The page's form state. */
  class NewPostForm {
    var values: FormValues

    constructor (initial: FormValues)
      ensures values == initial
    {
      values := initial;
    }

    /** `handleInsertImage(url)`: the uploaded image appended to the content on a line of its
        own; every other field is kept. */
    method HandleInsertImage(url: string)
      modifies this
      ensures values == old(values).(content := Some(InsertImage(old(values).content, url)))
      ensures StartsWith(values.content.value, old(values).content.GetOr(""))
    {
      var toInsert := "\n![](" + url + ")\n";
      assert values.content.GetOr("") + toInsert == InsertImage(values.content, url);
      values := values.(content := Some(values.content.GetOr("") + toInsert));
    }
  }

  /** Inserting an image gives content the schema accepts, whatever the content was before. */
  lemma InsertedImageSatisfiesSchema(v: FormValues, url: string)
    requires Utf16Length(v.title) >= 3 && Utf16Length(v.slug) >= 3
    ensures SchemaValid(v.(content := Some(InsertImage(v.content, url))))
  {
  }

  /** The JSON body `createPost(data)` sends: the validated values as they are, the unset
      optional fields left out. */
  function FormBody(v: FormValues): (b: Body)
    requires SchemaValid(v)
    ensures Lookup(b, PUBLISHED_AT) == if v.publishedAt.Some? then Some(Str(v.publishedAt.value)) else None
  {
    KeysDistinct();
    CreateBody(CreatePostInput(v.title, Some(v.slug), v.content.value, v.summary, v.publishedAt))
  }

  /** The form submitted with Published At left empty sends an empty date, which the backend's
      `@IsISO8601()` refuses, so the whole request fails validation. */
  lemma EmptyDateRefused(v: FormValues, isIso: string -> bool)
    requires SchemaValid(v) && v.publishedAt == Some("") && !isIso("")
    ensures ValidateCreate(FormBody(v), isIso) == Err(VALIDATION_FAILED)
  {
    CreateRoundTrip(CreatePostInput(v.title, Some(v.slug), v.content.value, v.summary, v.publishedAt), isIso);
  }

  /** An empty optional input sent as absent. */
  function DropEmpty(o: Option<string>): (r: Option<string>)
    ensures r.Some? <==> Truthy(o)
    ensures r.Some? ==> r == o
  {
    if Truthy(o) then o else None
  }

  /** The body with empty optional inputs left out. */
  function CorrectedFormBody(v: FormValues): Body
    requires SchemaValid(v)
  {
    CreateBody(CreatePostInput(v.title, Some(v.slug), v.content.value, DropEmpty(v.summary), DropEmpty(v.publishedAt)))
  }

  /** With empty inputs left out, a form whose fields meet the backend's length limits passes
      validation even with no date, and the post it creates is published at the moment of
      creation. */
  lemma CorrectedEmptyDateAccepted(v: FormValues, isIso: string -> bool, id: string, now: int, dateOf: string -> int)
    requires SchemaValid(v)
    requires 3 <= TextLength(v.title) <= 200 && 3 <= TextLength(v.slug) <= 200 && 1 <= TextLength(v.content.value)
    requires Truthy(v.summary) ==> TextLength(v.summary.value) <= 500
    requires Truthy(v.publishedAt) ==> isIso(v.publishedAt.value)
    ensures ValidateCreate(CorrectedFormBody(v), isIso).Ok?
    ensures !Truthy(v.publishedAt) ==>
              var e := CreateEntity(ValidateCreate(CorrectedFormBody(v), isIso).value, id, now, dateOf);
              e.Ok? && e.value.publishedAt == Some(now)
  {
    var input := CreatePostInput(v.title, Some(v.slug), v.content.value, DropEmpty(v.summary), DropEmpty(v.publishedAt));
    CreateRoundTrip(input, isIso);
  }
}
