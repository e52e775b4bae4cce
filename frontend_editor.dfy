/** `TiptapEditor`: the checks before an image upload, the upload's progress flag and result,
    the prompt-driven image and link commands, and the sync of external content into the editor.
    The editor document is reduced to its HTML, the inserted image sources and the link on the
    selection; the network reply and the prompts' answers are parameters. */
module FrontendEditor {
  import opened Common

  const MAX_UPLOAD_SIZE: int := 5 * 1024 * 1024
  const VALID_TYPES: seq<string> := ["image/png", "image/jpeg", "image/jpg", "image/gif", "image/webp"]
  const DEFAULT_API_URL: string := "http://localhost:4000"
  const TOO_LARGE_ALERT: string := "File too large. Max size is 5MB."
  const BAD_TYPE_ALERT: string := "Invalid file type. Use PNG, JPG, GIF, or WebP."
  const UPLOAD_FAILED_ALERT: string := "Upload failed. Please try again."

  datatype UploadFile = UploadFile(size: nat, mimeType: string)

  /** What `uploadImage` decides before any request. */
  datatype Precheck = Skip | TooLarge | BadType | Send

  function UploadPrecheck(token: Option<string>, hasEditor: bool, file: UploadFile): (r: Precheck)
    ensures r == Skip <==> !Truthy(token) || !hasEditor
    ensures r == TooLarge <==> Truthy(token) && hasEditor && file.size > MAX_UPLOAD_SIZE
    ensures r == BadType <==> Truthy(token) && hasEditor && file.size <= MAX_UPLOAD_SIZE && file.mimeType !in VALID_TYPES
    ensures r == Send <==> Truthy(token) && hasEditor && file.size <= MAX_UPLOAD_SIZE && file.mimeType in VALID_TYPES
  {
    if !Truthy(token) || !hasEditor then Skip
    else if file.size > MAX_UPLOAD_SIZE then TooLarge
    else if file.mimeType !in VALID_TYPES then BadType
    else Send
  }

  /** The size is checked first: an oversized file is refused as too large whatever its type,
      and a file of exactly 5 MiB passes the size check. */
  lemma SizeCheckedBeforeType(token: string, mime: string)
    requires token != ""
    ensures UploadPrecheck(Some(token), true, UploadFile(5 * 1024 * 1024 + 1, mime)) == TooLarge
    ensures UploadPrecheck(Some(token), true, UploadFile(5 * 1024 * 1024, "image/png")) == Send
  {
    assert VALID_TYPES[0] == "image/png";
  }

  /** The request `uploadImage` sends. */
  datatype UploadRequest = UploadRequest(url: string, authorization: string)

  /** The body of the reply, as far as `data?.url` reads it. */
  datatype ReplyBody = NotJson | Json(url: Option<string>)

  /** The outcome of `fetch`. */
  datatype UploadReply = NetworkError | Reply(ok: bool, status: int, body: ReplyBody)

  /** Whether a reply leads to an inserted image, and which. */
  function ReplyImage(reply: UploadReply): (r: Option<string>)
    ensures r.Some? <==> reply.Reply? && reply.ok && reply.body.Json? && Truthy(reply.body.url)
    ensures r.Some? ==> r == reply.body.url
  {
    if reply.Reply? && reply.ok && reply.body.Json? && Truthy(reply.body.url) then reply.body.url else None
  }

  /** Whether a reply ends in the catch block. */
  predicate ReplyFails(reply: UploadReply) {
    reply.NetworkError? || !reply.ok || reply.body.NotJson?
  }

  class TiptapEditor {
    const hasEditor: bool
    var html: string
    var images: seq<string>
    var link: Option<string>
    var isUploading: bool
    var alerts: seq<string>
    var fileInputValue: string

    constructor (hasEditor: bool, content: string)
      ensures this.hasEditor == hasEditor && html == content
      ensures images == [] && link.None? && !isUploading && alerts == [] && fileInputValue == ""
    {
      this.hasEditor := hasEditor;
      html := content;
      images := [];
      link := None;
      isUploading := false;
      alerts := [];
      fileInputValue := "";
    }

    /** The effect on `content`: pushed into the editor only when it differs from its HTML. */
    method SyncContent(content: string) returns (pushed: bool)
      modifies this
      ensures pushed <==> hasEditor && content != old(html)
      ensures html == if pushed then content else old(html)
      ensures images == old(images) && link == old(link) && isUploading == old(isUploading)
      ensures alerts == old(alerts) && fileInputValue == old(fileInputValue)
    {
      pushed := false;
      if hasEditor && content != html {
        html := content;
        pushed := true;
      }
    }

    /** `uploadImage` up to its request: the checks, an alert for a refused file, and the
        progress flag raised before the request goes out with the bearer token. */
    method BeginUpload(token: Option<string>, file: UploadFile, apiUrl: Option<string>) returns (req: Option<UploadRequest>)
      modifies this
      ensures req.Some? <==> UploadPrecheck(token, hasEditor, file) == Send
      ensures req.Some? ==>
                && isUploading
                && req.value.url == (if Truthy(apiUrl) then apiUrl.value else DEFAULT_API_URL) + "/admin/uploads"
                && req.value.authorization == "Bearer " + token.value
      ensures req.None? ==> isUploading == old(isUploading)
      ensures alerts == old(alerts) + match UploadPrecheck(token, hasEditor, file)
                                      case TooLarge => [TOO_LARGE_ALERT]
                                      case BadType => [BAD_TYPE_ALERT]
                                      case _ => []
      ensures html == old(html) && images == old(images) && link == old(link) && fileInputValue == old(fileInputValue)
    {
      req := None;
      if !Truthy(token) || !hasEditor {
        return;
      }
      if file.size > MAX_UPLOAD_SIZE {
        alerts := alerts + [TOO_LARGE_ALERT];
        return;
      }
      if file.mimeType !in VALID_TYPES {
        alerts := alerts + [BAD_TYPE_ALERT];
        return;
      }
      isUploading := true;
      var base := if Truthy(apiUrl) then apiUrl.value else DEFAULT_API_URL;
      req := Some(UploadRequest(base + "/admin/uploads", "Bearer " + token.value));
    }

    /** `uploadImage` after its request: the image inserted when the reply names one, an alert
        when the request failed, and in every case the flag lowered and the file input cleared. */
    method FinishUpload(reply: UploadReply)
      modifies this
      ensures !isUploading && fileInputValue == ""
      ensures images == if ReplyImage(reply).Some? then old(images) + [ReplyImage(reply).value] else old(images)
      ensures alerts == if ReplyFails(reply) then old(alerts) + [UPLOAD_FAILED_ALERT] else old(alerts)
      ensures html == old(html) && link == old(link)
    {
      if reply.NetworkError? || !reply.ok || reply.body.NotJson? {
        alerts := alerts + [UPLOAD_FAILED_ALERT];
      } else if Truthy(reply.body.url) {
        images := images + [reply.body.url.value];
      }
      isUploading := false;
      fileInputValue := "";
    }

    /** `addImage`: the prompted URL inserted when it is non-empty. */
    method AddImage(answer: Option<string>)
      modifies this
      ensures images == if Truthy(answer) && hasEditor then old(images) + [answer.value] else old(images)
      ensures html == old(html) && link == old(link) && isUploading == old(isUploading)
      ensures alerts == old(alerts) && fileInputValue == old(fileInputValue)
    {
      if Truthy(answer) && hasEditor {
        images := images + [answer.value];
      }
    }

    /** `setLink`: a cancelled prompt changes nothing, an empty answer removes the link, any
        other answer becomes its target. */
    method SetLink(answer: Option<string>)
      modifies this
      ensures !hasEditor || answer.None? ==> link == old(link)
      ensures hasEditor && answer == Some("") ==> link.None?
      ensures hasEditor && Truthy(answer) ==> link == answer
      ensures html == old(html) && images == old(images) && isUploading == old(isUploading)
      ensures alerts == old(alerts) && fileInputValue == old(fileInputValue)
    {
      if !hasEditor {
        return;
      }
      if answer.None? {
        return;
      }
      if answer.value == "" {
        link := None;
        return;
      }
      link := answer;
    }
  }

  /** A complete upload: with a token, an editor and an acceptable file the flag is up while the
      request is out and down afterwards, and the image appears when the reply carries its URL. */
  method UploadScenario(e: TiptapEditor, token: string, file: UploadFile, reply: UploadReply)
    returns (during: bool)
    requires e.hasEditor && token != ""
    requires file.size <= MAX_UPLOAD_SIZE && file.mimeType in VALID_TYPES
    modifies e
    ensures during && !e.isUploading
    ensures e.images == if ReplyImage(reply).Some? then old(e.images) + [ReplyImage(reply).value] else old(e.images)
  {
    var req := e.BeginUpload(Some(token), file, None);
    during := e.isUploading;
    e.FinishUpload(reply);
  }
}
