/** `UploadsController`: multer's file filter (an extension whitelist), the stored file name, the
    5 MiB size limit and the URL the upload answers with.  The clock and `Math.random()` are
    parameters; the extension is taken as Node's POSIX `path.extname` takes it. */
module BackendUploads {
  import opened Common

  const ALLOWED: set<string> := {".png", ".jpg", ".jpeg", ".gif", ".webp"}
  const MAX_FILE_SIZE: int := 5 * 1024 * 1024

  /** The path without its trailing slashes. */
  function StripTrailingSlashes(p: string): (r: string)
    ensures StartsWith(p, r)
    ensures r == [] || r[|r| - 1] != '/'
    ensures forall i :: |r| <= i < |p| ==> p[i] == '/'
  {
    if |p| > 0 && p[|p| - 1] == '/' then StripTrailingSlashes(p[..|p| - 1]) else p
  }

  /** What follows the last slash. */
  function LastSegment(p: string): (r: string)
    ensures EndsWith(p, r)
    ensures forall i :: 0 <= i < |r| ==> r[i] != '/'
    ensures |r| < |p| ==> p[|p| - |r| - 1] == '/'
  {
    if |p| == 0 then p
    else if p[|p| - 1] == '/' then []
    else
      var r := LastSegment(p[..|p| - 1]) + [p[|p| - 1]];
      assert p[|p| - |r|..] == p[..|p| - 1][|p| - |r|..] + [p[|p| - 1]];
      r
  }

  /** The index of the last '.', or -1. */
  function LastDot(s: string): (d: int)
    ensures -1 <= d < |s|
    ensures d >= 0 ==> s[d] == '.'
    ensures forall i :: d < i < |s| ==> s[i] != '.'
  {
    if |s| == 0 then -1
    else if s[|s| - 1] == '.' then |s| - 1
    else LastDot(s[..|s| - 1])
  }

  /** `path.extname`: from the last '.' of the last segment to its end; empty when the segment has
      no '.', when its only leading character is that '.', and for the segment "..". */
  function Extname(p: string): (r: string)
    ensures r == [] || (r[0] == '.' && forall i :: 1 <= i < |r| ==> r[i] != '.' && r[i] != '/')
    ensures EndsWith(LastSegment(StripTrailingSlashes(p)), r)
  {
    var seg := LastSegment(StripTrailingSlashes(p));
    var d := LastDot(seg);
    if d <= 0 || seg == ".." then [] else seg[d..]
  }

  /** `fileFilter`: the lowercased extension is on the whitelist.  ASCII folding suffices: no
      character outside ASCII lowercases to one of the whitelisted letters. */
  predicate FileAccepted(originalname: string) {
    LowerAsciiString(Extname(originalname)) in ALLOWED
  }

  /** `${Date.now()}-${Math.round(Math.random() * 1e9)}` */
  function UniquePrefix(nowMs: nat, random: nat): (r: string)
    ensures |r| >= 3
    ensures forall i :: 0 <= i < |r| ==> r[i] != '.' && r[i] != '/'
  {
    var a := NatToDecimal(nowMs);
    var b := NatToDecimal(random);
    assert forall i :: 0 <= i < |a| ==> IsDigit(a[i]);
    a + "-" + b
  }

  /** The name multer stores the file under. */
  function StoredFilename(nowMs: nat, random: nat, originalname: string): string {
    UniquePrefix(nowMs, random) + LowerAsciiString(Extname(originalname))
  }

  /** `process.env.PUBLIC_URL || `${req.protocol}://${req.get('host')}`` */
  function Origin(publicUrl: Option<string>, protocol: string, host: string): (r: string)
    ensures Truthy(publicUrl) ==> r == publicUrl.value
    ensures !Truthy(publicUrl) ==> r == protocol + "://" + host
  {
    if Truthy(publicUrl) then publicUrl.value else protocol + "://" + host
  }

  /** What a request to `POST /admin/uploads` ends in.  A file the filter refuses is skipped, so
      the handler reads `filename` of an undefined file and the request fails with a server error. */
  datatype UploadResponse = Uploaded(url: string) | FileTooLarge | MissingFile

  function Upload(originalname: string, size: nat, nowMs: nat, random: nat,
                  publicUrl: Option<string>, protocol: string, host: string): (r: UploadResponse)
    ensures r.MissingFile? <==> !FileAccepted(originalname)
    ensures r.FileTooLarge? <==> FileAccepted(originalname) && size > MAX_FILE_SIZE
    ensures r.Uploaded? ==>
              && r.url == Origin(publicUrl, protocol, host) + "/uploads/" + StoredFilename(nowMs, random, originalname)
              && EndsWith(r.url, LowerAsciiString(Extname(originalname)))
  {
    if !FileAccepted(originalname) then MissingFile
    else if size > MAX_FILE_SIZE then FileTooLarge
    else
      var url := Origin(publicUrl, protocol, host) + "/uploads/" + StoredFilename(nowMs, random, originalname);
      UploadUrlEnds(Origin(publicUrl, protocol, host) + "/uploads/", nowMs, random, originalname);
      Uploaded(url)
  }

  /** A URL ending in the stored name ends in the lowercased extension. */
  lemma UploadUrlEnds(base: string, nowMs: nat, random: nat, originalname: string)
    ensures EndsWith(base + StoredFilename(nowMs, random, originalname), LowerAsciiString(Extname(originalname)))
  {
    var ext := LowerAsciiString(Extname(originalname));
    EndsWithAppend(UniquePrefix(nowMs, random), ext);
    EndsWithExtend(base, StoredFilename(nowMs, random, originalname), ext);
  }

  lemma EndsWithAppend(a: string, b: string)
    ensures EndsWith(a + b, b)
  {
    assert (a + b)[|a + b| - |b|..] == b;
  }

  lemma EndsWithExtend(a: string, b: string, c: string)
    requires EndsWith(b, c)
    ensures EndsWith(a + b, c)
  {
    assert (a + b)[|a + b| - |c|..] == b[|b| - |c|..];
  }

  /** A path with no '/' is its own last segment. */
  lemma LastSegmentNoSlash(s: string)
    requires forall i :: 0 <= i < |s| ==> s[i] != '/'
    ensures StripTrailingSlashes(s) == s && LastSegment(s) == s
  {
    var seg := LastSegment(s);
  }

  /** The last '.' is the one with no '.' after it. */
  lemma LastDotAt(s: string, k: int)
    requires 0 <= k < |s| && s[k] == '.'
    requires forall i :: k < i < |s| ==> s[i] != '.'
    ensures LastDot(s) == k
  {
  }

  /** A name with no '/' whose last '.' is neither its first character nor followed by a '/' has
      the extension that starts at that '.'. */
  lemma ExtnameOfJoin(prefix: string, ext: string)
    requires |prefix| >= 1 && forall i :: 0 <= i < |prefix| ==> prefix[i] != '/'
    requires |ext| >= 2 && ext[0] == '.' && forall i :: 1 <= i < |ext| ==> ext[i] != '.' && ext[i] != '/'
    ensures Extname(prefix + ext) == ext
  {
    var s := prefix + ext;
    assert forall i :: |prefix| < i < |s| ==> s[i] == ext[i - |prefix|];
    LastSegmentNoSlash(s);
    LastDotAt(s, |prefix|);
    assert s[|prefix|..] == ext;
  }

  /** Each whitelisted extension is a '.' followed by lowercase letters only. */
  lemma AllowedShape(ext: string)
    requires ext in ALLOWED
    ensures |ext| >= 2 && ext[0] == '.'
    ensures forall i :: 1 <= i < |ext| ==> 'a' <= ext[i] <= 'z'
    ensures LowerAsciiString(ext) == ext
    ensures ext[1] == 'p' || ext[1] == 'j' || ext[1] == 'g' || ext[1] == 'w'
  {
    assert ext == ".png" || ext == ".jpg" || ext == ".jpeg" || ext == ".gif" || ext == ".webp";
    var l := LowerAsciiString(ext);
    assert forall i :: 0 <= i < |ext| ==> l[i] == ext[i];
  }

  /** The stored file keeps the accepted extension, so it would pass the filter itself. */
  lemma StoredFileKeepsExtension(nowMs: nat, random: nat, originalname: string)
    requires FileAccepted(originalname)
    ensures Extname(StoredFilename(nowMs, random, originalname)) == LowerAsciiString(Extname(originalname))
    ensures FileAccepted(StoredFilename(nowMs, random, originalname))
  {
    var ext := LowerAsciiString(Extname(originalname));
    AllowedShape(ext);
    ExtnameOfJoin(UniquePrefix(nowMs, random), ext);
  }

  /** The filter ignores case. */
  lemma UpperCaseExtensionAccepted()
    ensures FileAccepted("A.PNG")
  {
    ExtnameOfJoin("A", ".PNG");
    var s := "A" + ".PNG";
    assert |s| == 5 && s[0] == 'A' && s[1] == '.' && s[2] == 'P' && s[3] == 'N' && s[4] == 'G';
    assert s == "A.PNG";
    LowerPng();
    assert ".png" in ALLOWED;
  }

  lemma LowerPng()
    ensures LowerAsciiString(".PNG") == ".png"
  {
    var l := LowerAsciiString(".PNG");
    assert l[0] == '.' && l[1] == 'p' && l[2] == 'n' && l[3] == 'g';
  }

  /** Only the last extension counts, and a dot-file has none. */
  lemma LastExtensionOnly()
    ensures !FileAccepted("photo.png.exe")
    ensures !FileAccepted(".png")
  {
    LastExtensionIsExe();
    DotFileHasNoExtension();
    if FileAccepted(".png") {
      AllowedShape(LowerAsciiString(Extname(".png")));
      assert false;
    }
  }

  lemma LastExtensionIsExe()
    ensures Extname("photo.png.exe") == ".exe"
    ensures !FileAccepted("photo.png.exe")
  {
    ExtnameOfJoin("photo.png", ".exe");
    assert "photo.png" + ".exe" == "photo.png.exe";
    var l := LowerAsciiString(".exe");
    assert l[1] == 'e';
    if l in ALLOWED {
      AllowedShape(l);
      assert false;
    }
  }

  lemma DotFileHasNoExtension()
    ensures Extname(".png") == ""
  {
    LastSegmentNoSlash(".png");
    LastDotAt(".png", 0);
  }
}
