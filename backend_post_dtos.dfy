/** `CreatePostDto` and `UpdatePostDto` as the global `ValidationPipe` applies them: unknown
    properties are refused, a property declared `string` is first converted with `String(value)`
    (implicit conversion), an optional field that is null or undefined skips its checks, and
    lengths are counted as the validator library counts them.  ISO-8601 recognition is a
    parameter. */
module BackendPostDtos {
  import opened Common
  import opened Sorting
  import opened BackendPosts
  import opened BackendPostsService

  /** A JSON property as the body carries it.  A number carries the text `String(n)` gives for it. */
  datatype JsonValue = Null | Str(s: string) | Number(text: string) | Bool(b: bool) | Object | Array

  const OBJECT_TEXT: string := "[object Object]"

  /** The pipe's implicit conversion of a property declared `string`: null stays null, an array
      stays an array (its elements are converted, the property is still no string), and any other
      value becomes `String(value)`. */
  function Converted(v: JsonValue): (r: JsonValue)
    ensures r.Null? <==> v.Null?
    ensures r.Array? <==> v.Array?
    ensures !v.Null? && !v.Array? ==> r.Str?
    ensures v.Str? ==> r == v
  {
    match v
    case Null => Null
    case Str(s) => Str(s)
    case Number(text) => Str(text)
    case Bool(b) => Str(if b then "true" else "false")
    case Object => Str(OBJECT_TEXT)
    case Array => Array
  }

  /** The string a property holds after conversion, if it holds one. */
  function Text(v: Option<JsonValue>): Option<string> {
    if v.Some? && Converted(v.value).Str? then Some(Converted(v.value).s) else None
  }
  type Body = map<string, JsonValue>

  const TITLE: string := "title"
  const SLUG: string := "slug"
  const CONTENT: string := "content"
  const SUMMARY: string := "summary"
  const PUBLISHED_AT: string := "publishedAt"
  const KNOWN_FIELDS: set<string> := {TITLE, SLUG, CONTENT, SUMMARY, PUBLISHED_AT}

  predicate IsVariationSelector(c: char) { c == '\U{FE0E}' || c == '\U{FE0F}' }
  function IsVariationSelectorFn(): char -> bool { (c: char) => IsVariationSelector(c) }

  /** The library's `isLength` count: code points, with the two emoji presentation selectors not
      counted. */
  function TextLength(s: string): (n: nat)
    ensures n <= |s|
    ensures (forall i :: 0 <= i < |s| ==> !IsVariationSelector(s[i])) ==> n == |s|
  {
    var f := Filter(s, IsVariationSelectorFn());
    assert (forall i :: 0 <= i < |s| ==> !IsVariationSelector(s[i])) ==> f == [] by {
      if f != [] {
        assert f[0] in f;
      }
    }
    |s| - |f|
  }

  function Lookup(body: Body, key: string): Option<JsonValue> {
    if key in body then Some(body[key]) else None
  }

  /** `@IsString` with `@MinLength(min)` and, when given, `@MaxLength(max)`, behind `@IsOptional`
      when `optional` holds. */
  predicate FieldOk(v: Option<JsonValue>, optional: bool, min: nat, max: Option<nat>) {
    if v.None? || v.value.Null? then optional
    else match Text(v)
      case None => false
      case Some(s) => min <= TextLength(s) && (max.None? || TextLength(s) <= max.value)
  }

  /** `@IsOptional() @IsISO8601()` */
  predicate DateOk(v: Option<JsonValue>, isIso: string -> bool) {
    if v.None? || v.value.Null? then true
    else match Text(v)
      case None => false
      case Some(s) => isIso(s)
  }

  predicate CreateBodyValid(body: Body, isIso: string -> bool) {
    && body.Keys <= KNOWN_FIELDS
    && FieldOk(Lookup(body, TITLE), false, 3, Some(200))
    && FieldOk(Lookup(body, SLUG), true, 3, Some(200))
    && FieldOk(Lookup(body, CONTENT), false, 1, None)
    && FieldOk(Lookup(body, SUMMARY), true, 0, Some(500))
    && DateOk(Lookup(body, PUBLISHED_AT), isIso)
  }

  predicate UpdateBodyValid(body: Body, isIso: string -> bool) {
    && body.Keys <= KNOWN_FIELDS
    && FieldOk(Lookup(body, TITLE), true, 3, Some(200))
    && FieldOk(Lookup(body, SLUG), true, 3, Some(200))
    && FieldOk(Lookup(body, CONTENT), true, 1, None)
    && FieldOk(Lookup(body, SUMMARY), true, 0, Some(500))
    && DateOk(Lookup(body, PUBLISHED_AT), isIso)
  }

  /** An optional string property after conversion: null and undefined both reach the service as
      absent. */
  function OptString(v: Option<JsonValue>): Option<string> {
    Text(v)
  }

  const VALIDATION_FAILED: string := "Bad Request"

  /** The pipe in front of `POST /posts`: a valid body becomes the service's input. */
  function ValidateCreate(body: Body, isIso: string -> bool): (r: Result<CreatePostInput>)
    ensures r.Ok? <==> CreateBodyValid(body, isIso)
    ensures r.Err? ==> r.message == VALIDATION_FAILED
    ensures r.Ok? ==> && 3 <= TextLength(r.value.title) <= 200 && 1 <= TextLength(r.value.content)
                      && (r.value.slug.Some? ==> 3 <= TextLength(r.value.slug.value) <= 200)
                      && (r.value.summary.Some? ==> TextLength(r.value.summary.value) <= 500)
                      && (r.value.publishedAt.Some? ==> isIso(r.value.publishedAt.value))
    ensures r.Ok? ==> && Text(Lookup(body, TITLE)) == Some(r.value.title)
                      && Text(Lookup(body, CONTENT)) == Some(r.value.content)
                      && r.value.slug == Text(Lookup(body, SLUG))
                      && r.value.summary == Text(Lookup(body, SUMMARY))
                      && r.value.publishedAt == Text(Lookup(body, PUBLISHED_AT))
  {
    if !CreateBodyValid(body, isIso) then Err(VALIDATION_FAILED)
    else Ok(CreatePostInput(Text(Lookup(body, TITLE)).value, OptString(Lookup(body, SLUG)), Text(Lookup(body, CONTENT)).value,
                            OptString(Lookup(body, SUMMARY)), OptString(Lookup(body, PUBLISHED_AT))))
  }

  /** The pipe in front of `PUT /posts/:id`. */
  function ValidateUpdate(body: Body, isIso: string -> bool): (r: Result<UpdatePostInput>)
    ensures r.Ok? <==> UpdateBodyValid(body, isIso)
    ensures r.Err? ==> r.message == VALIDATION_FAILED
    ensures r.Ok? ==> && (r.value.title.Some? ==> 3 <= TextLength(r.value.title.value) <= 200)
                      && (r.value.slug.Some? ==> 3 <= TextLength(r.value.slug.value) <= 200)
                      && (r.value.content.Some? ==> 1 <= TextLength(r.value.content.value))
                      && (r.value.summary.Some? ==> TextLength(r.value.summary.value) <= 500)
                      && (r.value.publishedAt.Some? ==> isIso(r.value.publishedAt.value))
    ensures r.Ok? ==> && r.value.title == Text(Lookup(body, TITLE))
                      && r.value.slug == Text(Lookup(body, SLUG))
                      && r.value.content == Text(Lookup(body, CONTENT))
                      && r.value.summary == Text(Lookup(body, SUMMARY))
                      && r.value.publishedAt == Text(Lookup(body, PUBLISHED_AT))
  {
    if !UpdateBodyValid(body, isIso) then Err(VALIDATION_FAILED)
    else Ok(UpdatePostInput(OptString(Lookup(body, TITLE)), OptString(Lookup(body, SLUG)),
                            OptString(Lookup(body, CONTENT)), OptString(Lookup(body, SUMMARY)),
                            OptString(Lookup(body, PUBLISHED_AT))))
  }

  /** The body with `key` set when a value is given, unchanged otherwise. */
  function PutOpt(b: Body, key: string, v: Option<string>): (r: Body)
    ensures forall k :: Lookup(r, k) == if k == key && v.Some? then Some(Str(v.value)) else Lookup(b, k)
    ensures r.Keys <= b.Keys + {key}
  {
    if v.Some? then b[key := Str(v.value)] else b
  }

  /** The body a client sends for a create input, absent fields left out. */
  function CreateBody(input: CreatePostInput): (b: Body)
    ensures b.Keys <= KNOWN_FIELDS
  {
    var base := map[TITLE := Str(input.title), CONTENT := Str(input.content)];
    PutOpt(PutOpt(PutOpt(base, SLUG, input.slug), SUMMARY, input.summary), PUBLISHED_AT, input.publishedAt)
  }

  lemma KeysDistinct()
    ensures TITLE != SLUG && TITLE != CONTENT && TITLE != SUMMARY && TITLE != PUBLISHED_AT
    ensures SLUG != CONTENT && SLUG != SUMMARY && SLUG != PUBLISHED_AT
    ensures CONTENT != SUMMARY && CONTENT != PUBLISHED_AT && SUMMARY != PUBLISHED_AT
  {
    assert TITLE[0] == 't' && SLUG[0] == 's' && CONTENT[0] == 'c' && SUMMARY[0] == 's' && PUBLISHED_AT[0] == 'p';
    assert SLUG[1] == 'l' && SUMMARY[1] == 'u';
  }

  /** Sending an input as a body and validating it gives the input back, and the body is accepted
      exactly when the input meets the field constraints. */
  lemma CreateRoundTrip(input: CreatePostInput, isIso: string -> bool)
    ensures var r := ValidateCreate(CreateBody(input), isIso);
            && (r.Ok? <==> && 3 <= TextLength(input.title) <= 200 && 1 <= TextLength(input.content)
                           && (input.slug.Some? ==> 3 <= TextLength(input.slug.value) <= 200)
                           && (input.summary.Some? ==> TextLength(input.summary.value) <= 500)
                           && (input.publishedAt.Some? ==> isIso(input.publishedAt.value)))
            && (r.Ok? ==> r.value == input)
  {
    CreateBodyLookups(input);
    ValidateBodyOf(CreateBody(input), input, isIso);
  }

  /** Validating any body with the properties of an input's body. */
  lemma ValidateBodyOf(b: Body, input: CreatePostInput, isIso: string -> bool)
    requires b.Keys <= KNOWN_FIELDS
    requires Lookup(b, TITLE) == Some(Str(input.title)) && Lookup(b, CONTENT) == Some(Str(input.content))
    requires OptString(Lookup(b, SLUG)) == input.slug && (input.slug.None? ==> Lookup(b, SLUG).None?)
    requires OptString(Lookup(b, SUMMARY)) == input.summary && (input.summary.None? ==> Lookup(b, SUMMARY).None?)
    requires OptString(Lookup(b, PUBLISHED_AT)) == input.publishedAt
    requires input.publishedAt.None? ==> Lookup(b, PUBLISHED_AT).None?
    requires input.slug.Some? ==> Lookup(b, SLUG) == Some(Str(input.slug.value))
    requires input.summary.Some? ==> Lookup(b, SUMMARY) == Some(Str(input.summary.value))
    requires input.publishedAt.Some? ==> Lookup(b, PUBLISHED_AT) == Some(Str(input.publishedAt.value))
    ensures var r := ValidateCreate(b, isIso);
            && (r.Ok? <==> && 3 <= TextLength(input.title) <= 200 && 1 <= TextLength(input.content)
                           && (input.slug.Some? ==> 3 <= TextLength(input.slug.value) <= 200)
                           && (input.summary.Some? ==> TextLength(input.summary.value) <= 500)
                           && (input.publishedAt.Some? ==> isIso(input.publishedAt.value)))
            && (r.Ok? ==> r.value == input)
  {
    OptFieldOk(input.slug, Lookup(b, SLUG), 3, 200);
    OptFieldOk(input.summary, Lookup(b, SUMMARY), 0, 500);
    OptDateOk(input.publishedAt, Lookup(b, PUBLISHED_AT), isIso);
    RequiredFieldOk(input.title, Lookup(b, TITLE), 3, Some(200));
    RequiredFieldOk(input.content, Lookup(b, CONTENT), 1, None);
    assert CreateBodyValid(b, isIso) <==> && 3 <= TextLength(input.title) <= 200 && 1 <= TextLength(input.content)
                                          && (input.slug.Some? ==> 3 <= TextLength(input.slug.value) <= 200)
                                          && (input.summary.Some? ==> TextLength(input.summary.value) <= 500)
                                          && (input.publishedAt.Some? ==> isIso(input.publishedAt.value));
  }

  /** A required string property that is sent. */
  lemma RequiredFieldOk(v: string, lv: Option<JsonValue>, min: nat, max: Option<nat>)
    requires lv == Some(Str(v))
    ensures Text(lv) == Some(v)
    ensures FieldOk(lv, false, min, max) <==> min <= TextLength(v) && (max.None? || TextLength(v) <= max.value)
  {
  }

  /** An optional string property sent only when the input has it. */
  lemma OptFieldOk(v: Option<string>, lv: Option<JsonValue>, min: nat, max: nat)
    requires v.None? ==> lv.None?
    requires v.Some? ==> lv == Some(Str(v.value))
    ensures FieldOk(lv, true, min, Some(max)) <==> (v.Some? ==> min <= TextLength(v.value) <= max)
  {
  }

  lemma OptDateOk(v: Option<string>, lv: Option<JsonValue>, isIso: string -> bool)
    requires v.None? ==> lv.None?
    requires v.Some? ==> lv == Some(Str(v.value))
    ensures DateOk(lv, isIso) <==> (v.Some? ==> isIso(v.value))
  {
  }

  /** The properties of a create body: the two required strings, and each optional field exactly
      when the input has it. */
  lemma CreateBodyLookups(input: CreatePostInput)
    ensures var b := CreateBody(input);
            && Lookup(b, TITLE) == Some(Str(input.title)) && Lookup(b, CONTENT) == Some(Str(input.content))
            && OptString(Lookup(b, SLUG)) == input.slug && (input.slug.None? ==> Lookup(b, SLUG).None?)
            && OptString(Lookup(b, SUMMARY)) == input.summary && (input.summary.None? ==> Lookup(b, SUMMARY).None?)
            && OptString(Lookup(b, PUBLISHED_AT)) == input.publishedAt
            && (input.publishedAt.None? ==> Lookup(b, PUBLISHED_AT).None?)
            && (input.slug.Some? ==> Lookup(b, SLUG) == Some(Str(input.slug.value)))
            && (input.summary.Some? ==> Lookup(b, SUMMARY) == Some(Str(input.summary.value)))
            && (input.publishedAt.Some? ==> Lookup(b, PUBLISHED_AT) == Some(Str(input.publishedAt.value)))
  {
    KeysDistinct();
    var base := map[TITLE := Str(input.title), CONTENT := Str(input.content)];
    assert Lookup(base, TITLE) == Some(Str(input.title)) && Lookup(base, CONTENT) == Some(Str(input.content));
    assert Lookup(base, SLUG).None? && Lookup(base, SUMMARY).None? && Lookup(base, PUBLISHED_AT).None?;
  }

  /** Every field of an update is optional: the empty body is valid and is the empty update. */
  lemma EmptyUpdateBodyValid(isIso: string -> bool)
    ensures ValidateUpdate(map[], isIso) == Ok(UpdatePostInput(None, None, None, None, None))
  {
  }

  /** A property the DTO does not declare is refused. */
  lemma UnknownPropertyRefused(body: Body, key: string, isIso: string -> bool)
    requires key in body && key !in KNOWN_FIELDS
    ensures ValidateCreate(body, isIso).Err? && ValidateUpdate(body, isIso).Err?
  {
  }

  /** A create body without a slug passes the DTO, yet the entity it yields has a null slug,
      which the NOT NULL column refuses. */
  lemma ValidatedCreateWithoutSlugFails(body: Body, isIso: string -> bool, id: string, now: int, dateOf: string -> int)
    requires CreateBodyValid(body, isIso) && SLUG !in body
    ensures ValidateCreate(body, isIso).Ok?
    ensures CreateEntity(ValidateCreate(body, isIso).value, id, now, dateOf) == Err(SLUG_NOT_NULL)
  {
  }

  /** A number or a boolean is converted to its text before the checks run, so such a body is
      accepted and the post gets that text. */
  lemma ImplicitConversionAccepted(isIso: string -> bool)
    ensures ValidateCreate(map[TITLE := Number("12345"), CONTENT := Bool(true)], isIso)
            == Ok(CreatePostInput("12345", None, "true", None, None))
  {
    KeysDistinct();
    var b := map[TITLE := Number("12345"), CONTENT := Bool(true)];
    assert Lookup(b, SLUG).None? && Lookup(b, SUMMARY).None? && Lookup(b, PUBLISHED_AT).None?;
    assert Text(Lookup(b, TITLE)) == Some("12345") && Text(Lookup(b, CONTENT)) == Some("true");
    PlainTextLength("12345");
    PlainTextLength("true");
    assert CreateBodyValid(b, isIso);
  }

  /** An object becomes the text `[object Object]`. */
  lemma ObjectConverted(isIso: string -> bool)
    ensures ValidateUpdate(map[SUMMARY := Object], isIso)
            == Ok(UpdatePostInput(None, None, None, Some(OBJECT_TEXT), None))
  {
    KeysDistinct();
    var u := map[SUMMARY := Object];
    assert Lookup(u, TITLE).None? && Lookup(u, SLUG).None? && Lookup(u, CONTENT).None? && Lookup(u, PUBLISHED_AT).None?;
    assert Text(Lookup(u, SUMMARY)) == Some(OBJECT_TEXT);
    assert |OBJECT_TEXT| == 15;
    assert FieldOk(Lookup(u, SUMMARY), true, 0, Some(500));
    assert UpdateBodyValid(u, isIso);
  }

  /** An array is never a string, whatever it holds. */
  lemma ArrayRefused(isIso: string -> bool)
    ensures ValidateUpdate(map[TITLE := Array], isIso).Err?
  {
    var a := map[TITLE := Array];
    assert !FieldOk(Lookup(a, TITLE), true, 3, Some(200));
  }

  /** Text without the two selectors has its full length. */
  lemma PlainTextLength(s: string)
    requires forall i :: 0 <= i < |s| ==> s[i] != '\U{FE0E}' && s[i] != '\U{FE0F}'
    ensures TextLength(s) == |s|
  {
  }
}
