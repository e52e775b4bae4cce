/** The markdown helpers of the frontend: `extractFirstImage`, which takes the URL of the first
    `![alt](url)` in a post's content with the regular expression `!\[.*?\]\((.*?)\)`, and the
    new-post page's `handleInsertImage`, which appends such an image.  The same `extractFirstImage`
    is written out twice, in the posts list and on the home page; one definition serves both. */
module FrontendMarkdown {
  import opened Common

  /** The characters JavaScript's `.` does not match. */
  predicate IsLineTerminator(c: char) {
    c == '\n' || c == '\r' || c == '\U{2028}' || c == '\U{2029}'
  }

  /** `(.*?)\)` read from position `k` stops at `q`: the first ')' with no line terminator before
      it. */
  predicate UrlCloses(c: string, k: int, q: int) {
    0 <= k <= q < |c| && c[q] == ')'
    && forall m :: k <= m < q ==> !IsLineTerminator(c[m]) && c[m] != ')'
  }

  /** The expression matches `c` from `i` with the `]` of `](` at `p` and the closing `)` at `q`. */
  predicate MatchAt(c: string, i: int, p: int, q: int) {
    && 0 <= i && i + 2 <= p && p + 1 < |c|
    && c[i] == '!' && c[i + 1] == '['
    && (forall k :: i + 2 <= k < p ==> !IsLineTerminator(c[k]))
    && c[p] == ']' && c[p + 1] == '('
    && UrlCloses(c, p + 2, q)
  }

  /** The match a backtracking engine reports: the leftmost start, and at that start the shortest
      alt text, the lazy `.*?` being tried shortest first. */
  ghost predicate FirstMatch(c: string, i: int, p: int, q: int) {
    && MatchAt(c, i, p, q)
    && (forall i', p', q' :: 0 <= i' < i ==> !MatchAt(c, i', p', q'))
    && (forall p', q' :: p' < p ==> !MatchAt(c, i, p', q'))
  }

  /** Where the lazy URL group closes, if it closes before a line terminator or the end. */
  function UrlEnd(c: string, k: nat): (r: Option<nat>)
    ensures r.Some? ==> UrlCloses(c, k, r.value)
    ensures r.None? ==> forall q :: !UrlCloses(c, k, q)
    decreases |c| - k
  {
    if k >= |c| || IsLineTerminator(c[k]) then None
    else if c[k] == ')' then Some(k)
    else
      var r := UrlEnd(c, k + 1);
      assert r.None? ==> forall q :: !UrlCloses(c, k, q) by {
        if r.None? {
          forall q | UrlCloses(c, k, q) ensures false {
            assert UrlCloses(c, k + 1, q);
          }
        }
      }
      r
  }

  /** At a start holding "![", the first position from `p` on where `](` and a closing URL
      follow, trying `p` upwards until a line terminator ends the alt text. */
  function AltSearch(c: string, i: nat, p: nat): (r: Option<(nat, nat)>)
    requires i + 2 <= p && i + 1 < |c| && c[i] == '!' && c[i + 1] == '['
    requires forall k :: i + 2 <= k < p && k < |c| ==> !IsLineTerminator(c[k])
    ensures r.Some? ==> MatchAt(c, i, r.value.0, r.value.1) && p <= r.value.0
    ensures r.Some? ==> forall p', q' :: p <= p' < r.value.0 ==> !MatchAt(c, i, p', q')
    ensures r.None? ==> forall p', q' :: p <= p' ==> !MatchAt(c, i, p', q')
    decreases |c| - p
  {
    if p + 1 >= |c| || IsLineTerminator(c[p]) then None
    else if c[p] == ']' && c[p + 1] == '(' && UrlEnd(c, p + 2).Some? then Some((p, UrlEnd(c, p + 2).value))
    else
      assert forall q' :: !MatchAt(c, i, p, q');
      AltSearch(c, i, p + 1)
  }

  /** The leftmost match starting at `i` or later. */
  function MatchFrom(c: string, i: nat): (r: Option<(nat, nat, nat)>)
    ensures r.Some? ==> i <= r.value.0 && FirstMatchFrom(c, i, r.value.0, r.value.1, r.value.2)
    ensures r.None? ==> forall i', p', q' :: i <= i' ==> !MatchAt(c, i', p', q')
    decreases |c| - i
  {
    if i + 1 >= |c| then None
    else if c[i] == '!' && c[i + 1] == '[' && AltSearch(c, i, i + 2).Some? then
      var m := AltSearch(c, i, i + 2).value;
      Some((i, m.0, m.1))
    else
      assert forall p', q' :: !MatchAt(c, i, p', q') by {
        if c[i] == '!' && c[i + 1] == '[' {
          assert AltSearch(c, i, i + 2).None?;
        }
      }
      MatchFrom(c, i + 1)
  }

  /** `FirstMatch` restricted to starts from `i` on. */
  ghost predicate FirstMatchFrom(c: string, from: int, i: int, p: int, q: int) {
    && MatchAt(c, i, p, q)
    && (forall i', p', q' :: from <= i' < i ==> !MatchAt(c, i', p', q'))
    && (forall p', q' :: p' < p ==> !MatchAt(c, i, p', q'))
  }

  /** `extractFirstImage(content)`: null for empty content, otherwise the URL group of the first
      match, or null when nothing matches. */
  function ExtractFirstImage(content: string): (r: Option<string>)
    ensures r.None? <==> forall i, p, q :: !MatchAt(content, i, p, q)
    ensures r.Some? ==> exists i, p, q :: FirstMatch(content, i, p, q) && r.value == content[p + 2..q]
  {
    if content == "" then None
    else match MatchFrom(content, 0)
      case None => None
      case Some((i, p, q)) =>
        assert FirstMatch(content, i, p, q);
        Some(content[p + 2..q])
  }

  /** There is one first match. */
  lemma FirstMatchUnique(c: string, i: int, p: int, q: int, i2: int, p2: int, q2: int)
    requires FirstMatch(c, i, p, q) && FirstMatch(c, i2, p2, q2)
    ensures i == i2 && p == p2 && q == q2
  {
    assert i == i2 && p == p2;
    UrlClosesUnique(c, p + 2, q, q2);
  }

  lemma UrlClosesUnique(c: string, k: int, q: int, q2: int)
    requires UrlCloses(c, k, q) && UrlCloses(c, k, q2)
    ensures q == q2
  {
  }

  /** Whatever first match the content has, its URL group is what `extractFirstImage` returns. */
  lemma ExtractFindsFirstMatch(c: string, i: int, p: int, q: int)
    requires FirstMatch(c, i, p, q)
    ensures ExtractFirstImage(c) == Some(c[p + 2..q])
  {
    var r := ExtractFirstImage(c);
    var i2, p2, q2 :| FirstMatch(c, i2, p2, q2) && r.value == c[p2 + 2..q2];
    FirstMatchUnique(c, i, p, q, i2, p2, q2);
  }

  /** The URL group holds no ')' and no line terminator. */
  lemma ExtractedUrlShape(c: string)
    requires ExtractFirstImage(c).Some?
    ensures var u := ExtractFirstImage(c).value;
            forall k :: 0 <= k < |u| ==> u[k] != ')' && !IsLineTerminator(u[k])
  {
    var u := ExtractFirstImage(c).value;
    var i, p, q :| FirstMatch(c, i, p, q) && u == c[p + 2..q];
    forall k | 0 <= k < |u| ensures u[k] != ')' && !IsLineTerminator(u[k]) {
      assert u[k] == c[p + 2 + k];
    }
  }

  /** `handleInsertImage(url)`: the content so far (nothing when unset) followed by an image on a
      line of its own. */
  function InsertImage(content: Option<string>, url: string): (r: string)
    ensures StartsWith(r, content.GetOr(""))
    ensures EndsWith(r, "![](" + url + ")\n")
  {
    var before := content.GetOr("");
    var r := before + ImageLine(url);
    assert r[..|before|] == before;
    assert r[|r| - |"![](" + url + ")\n"|..] == "![](" + url + ")\n";
    r
  }

  /** The text `handleInsertImage` appends. */
  function ImageLine(url: string): string {
    "\n![](" + url + ")\n"
  }

  /** Text after a line terminator cannot join a match that starts before it, so the matches
      starting in `c` are the same with or without what follows. */
  lemma MatchStaysInPrefix(c: string, d: string, i: int, p: int, q: int)
    requires |d| > 0 && IsLineTerminator(d[0]) && i < |c|
    ensures MatchAt(c + d, i, p, q) <==> MatchAt(c, i, p, q)
  {
    if MatchAt(c + d, i, p, q) {
      MatchInExtension(c, d, i, p, q);
    }
    if MatchAt(c, i, p, q) {
      MatchExtends(c, d, i, p, q);
    }
  }

  lemma MatchInExtension(c: string, d: string, i: int, p: int, q: int)
    requires |d| > 0 && IsLineTerminator(d[0]) && i < |c|
    requires MatchAt(c + d, i, p, q)
    ensures MatchAt(c, i, p, q)
  {
    var s := c + d;
    assert s[|c|] == d[0];
    assert q < |c|;
    forall k | i + 2 <= k < p ensures !IsLineTerminator(c[k]) {
      assert c[k] == s[k];
    }
    forall m | p + 2 <= m < q ensures !IsLineTerminator(c[m]) && c[m] != ')' {
      assert c[m] == s[m];
    }
  }

  lemma MatchExtends(c: string, d: string, i: int, p: int, q: int)
    requires MatchAt(c, i, p, q)
    ensures MatchAt(c + d, i, p, q)
  {
    var s := c + d;
    forall k | i + 2 <= k < p ensures !IsLineTerminator(s[k]) {
      assert c[k] == s[k];
    }
    forall m | p + 2 <= m < q ensures !IsLineTerminator(s[m]) && s[m] != ')' {
      assert c[m] == s[m];
    }
  }

  /** The image `\n![](url)\n` appended to `c` matches right after the line break. */
  lemma AppendedImageMatches(c: string, url: string)
    requires forall k :: 0 <= k < |url| ==> url[k] != ')' && !IsLineTerminator(url[k])
    ensures MatchAt(c + ImageLine(url), |c| + 1, |c| + 3, |c| + 5 + |url|)
  {
    var s := c + ImageLine(url);
    var p := |c| + 3;
    var q := p + 2 + |url|;
    assert s[|c| + 1] == '!' && s[|c| + 2] == '[' && s[p] == ']' && s[p + 1] == '(' && s[q] == ')';
    forall m | p + 2 <= m < q ensures !IsLineTerminator(s[m]) && s[m] != ')' {
      assert s[m] == url[m - p - 2];
    }
  }

  /** With no match in `c`, nothing matches the extended text before the appended image. */
  lemma NoMatchBeforeAppended(c: string, url: string, i: int, p: int, q: int)
    requires forall i, p, q :: !MatchAt(c, i, p, q)
    requires 0 <= i < |c| + 1
    ensures !MatchAt(c + ImageLine(url), i, p, q)
  {
    var d := ImageLine(url);
    if i < |c| {
      MatchStaysInPrefix(c, d, i, p, q);
    } else {
      assert (c + d)[i] == '\n';
    }
  }

  /** An image inserted into content that has none becomes the first image, provided its URL
      holds no ')' and no line terminator. */
  lemma InsertedImageIsExtracted(content: Option<string>, url: string)
    requires ExtractFirstImage(content.GetOr("")).None?
    requires forall k :: 0 <= k < |url| ==> url[k] != ')' && !IsLineTerminator(url[k])
    ensures ExtractFirstImage(InsertImage(content, url)) == Some(url)
  {
    var c := content.GetOr("");
    assert InsertImage(content, url) == c + ImageLine(url);
    AppendedImageExtracted(c, url);
  }

  lemma AppendedImageExtracted(c: string, url: string)
    requires forall i, p, q :: !MatchAt(c, i, p, q)
    requires forall k :: 0 <= k < |url| ==> url[k] != ')' && !IsLineTerminator(url[k])
    ensures ExtractFirstImage(c + ImageLine(url)) == Some(url)
  {
    AppendedImageIsFirst(c, url);
    ExtractFindsFirstMatch(c + ImageLine(url), |c| + 1, |c| + 3, |c| + 5 + |url|);
    AppendedUrlSlice(c, url);
  }

  /** The match of the appended image is the first match when `c` has none. */
  lemma AppendedImageIsFirst(c: string, url: string)
    requires forall i, p, q :: !MatchAt(c, i, p, q)
    requires forall k :: 0 <= k < |url| ==> url[k] != ')' && !IsLineTerminator(url[k])
    ensures FirstMatch(c + ImageLine(url), |c| + 1, |c| + 3, |c| + 5 + |url|)
  {
    var s := c + ImageLine(url);
    var i := |c| + 1;
    AppendedImageMatches(c, url);
    forall i', p', q' | 0 <= i' < i ensures !MatchAt(s, i', p', q') {
      NoMatchBeforeAppended(c, url, i', p', q');
    }
  }

  /** The URL group of the appended image is the URL. */
  lemma AppendedUrlSlice(c: string, url: string)
    ensures (c + ImageLine(url))[|c| + 5..|c| + 5 + |url|] == url
  {
    var s := c + ImageLine(url);
    forall k | 0 <= k < |url| ensures s[|c| + 5 + k] == url[k] {
    }
  }

  /** A first match stays the first match when text that starts with a line terminator is
      appended. */
  lemma FirstMatchExtends(c: string, d: string, i: int, p: int, q: int)
    requires |d| > 0 && IsLineTerminator(d[0])
    requires FirstMatch(c, i, p, q)
    ensures FirstMatch(c + d, i, p, q)
  {
    MatchExtends(c, d, i, p, q);
    forall i', p', q' | 0 <= i' < i ensures !MatchAt(c + d, i', p', q') {
      MatchStaysInPrefix(c, d, i', p', q');
    }
    forall p', q' | p' < p ensures !MatchAt(c + d, i, p', q') {
      MatchStaysInPrefix(c, d, i, p', q');
    }
  }

  /** Inserting an image into content that already has one leaves the first image unchanged. */
  lemma InsertKeepsFirstImage(content: Option<string>, url: string)
    requires ExtractFirstImage(content.GetOr("")).Some?
    ensures ExtractFirstImage(InsertImage(content, url)) == ExtractFirstImage(content.GetOr(""))
  {
    var c := content.GetOr("");
    var d := ImageLine(url);
    var i, p, q :| FirstMatch(c, i, p, q) && ExtractFirstImage(c).value == c[p + 2..q];
    FirstMatchExtends(c, d, i, p, q);
    ExtractFindsFirstMatch(c + d, i, p, q);
    assert (c + d)[p + 2..q] == c[p + 2..q];
  }

  /** The lazy alt text stops at the first `](` that is followed by a closing URL: "![a](b)](c)"
      yields "b". */
  lemma LazyAltExample()
    ensures ExtractFirstImage("![a](b)](c)") == Some("b")
  {
    var s := "![a](b)](c)";
    assert UrlCloses(s, 5, 6);
    assert MatchAt(s, 0, 3, 6);
    forall p', q' | p' < 3 ensures !MatchAt(s, 0, p', q') {
      if 2 <= p' { assert s[p'] != ']'; }
    }
    assert FirstMatch(s, 0, 3, 6);
    ExtractFindsFirstMatch(s, 0, 3, 6);
    assert s[5..6] == "b";
  }

  /** A match never spans a line break: "![a\n](b)" has no image. */
  lemma NoMatchAcrossLines()
    ensures ExtractFirstImage("![a\n](b)") == None
  {
    var s := "![a\n](b)";
    forall i, p, q ensures !MatchAt(s, i, p, q) {
      if 0 < i < |s| {
        assert s[i] != '!';
      }
      if 4 <= p {
        assert IsLineTerminator(s[3]);
      }
      if p == 2 || p == 3 {
        assert s[p] != ']';
      }
    }
  }
}
