/**
 * The media-deletion half of src/services/cloudinaryService.ts: deriving the
 * media identifier from a stored URL, and the client-side call to the
 * deletion proxy that gives up without a request when no identifier can be
 * derived.
 */
module CloudinaryService {
  import opened Wrappers
  import opened Strings
  import opened Backend

  const UploadSegment := "/upload/"

  /** `[a-zA-Z]`. */
  predicate IsAsciiLetter(c: char) {
    ('a' <= c <= 'z') || ('A' <= c <= 'Z')
  }

  /** No code point that a regular-expression `.` refuses. */
  predicate NoLineTerminator(s: string) {
    forall i :: 0 <= i < |s| ==> !IsLineTerminator(s[i])
  }

  /** How many ASCII letters `s` ends with. */
  function TrailingLetters(s: string): (n: nat)
    ensures n <= |s|
    ensures forall i :: |s| - n <= i < |s| ==> IsAsciiLetter(s[i])
    ensures n < |s| ==> !IsAsciiLetter(s[|s| - n - 1])
  {
    if s != [] && IsAsciiLetter(s[|s| - 1]) then TrailingLetters(s[..|s| - 1]) + 1 else 0
  }

  /** How many ASCII digits `s` starts with. */
  function LeadingDigits(s: string): (n: nat)
    ensures n <= |s|
    ensures forall i :: 0 <= i < n ==> IsDigit(s[i])
    ensures n < |s| ==> !IsDigit(s[n])
  {
    if s != [] && IsDigit(s[0]) then LeadingDigits(s[1..]) + 1 else 0
  }

  /** `\.[a-zA-Z]+$` matches at position `d`. */
  predicate ExtensionAt(url: string, d: int) {
    0 <= d < |url| - 1 && url[d] == '.' && forall i :: d < i < |url| ==> IsAsciiLetter(url[i])
  }

  /** The one position where `\.[a-zA-Z]+$` can match, if the URL ends that way. */
  function ExtensionDot(url: string): (d: Option<nat>)
    ensures d.Some? ==> ExtensionAt(url, d.value)
    ensures forall k :: ExtensionAt(url, k) ==> d == Some(k)
  {
    var n := TrailingLetters(url);
    if n >= 1 && n < |url| && url[|url| - n - 1] == '.' then Some(|url| - n - 1) else None
  }

  /** `(.+)\.[a-zA-Z]+$` anchored at position `s`: the captured text, if it matches. */
  function CaptureFrom(url: string, s: nat): (r: Option<string>)
    requires s <= |url|
    ensures r.Some? ==> r.value != [] && NoLineTerminator(r.value) && ExtensionAt(url, s + |r.value|)
    ensures r.Some? ==> url[s..s + |r.value|] == r.value
    ensures r.None? ==> forall d :: s < d && ExtensionAt(url, d) ==> !NoLineTerminator(url[s..d])
  {
    match ExtensionDot(url)
    case None => None
    case Some(d) => if s < d && NoLineTerminator(url[s..d]) then Some(url[s..d]) else None
  }

  /** The length of a `v\d+\/` segment starting at `q`, or 0 when there is none. */
  function VersionLength(url: string, q: nat): (n: nat)
    requires q <= |url|
    ensures n == 0 || (n >= 3 && q + n <= |url|)
    ensures n > 0 ==> url[q] == 'v' && url[q + n - 1] == '/' && forall i :: q + 1 <= i < q + n - 1 ==> IsDigit(url[i])
  {
    if q < |url| && url[q] == 'v' then
      var k := LeadingDigits(url[q + 1..]);
      if k >= 1 && q + 1 + k < |url| && url[q + 1 + k] == '/' then k + 2 else 0
    else 0
  }

  /** What follows a `/upload/` ending at `q`: the optional version segment is tried first, then skipped. */
  function CaptureAfterUpload(url: string, q: nat): (r: Option<string>)
    requires q <= |url|
  {
    var n := VersionLength(url, q);
    if n > 0 && CaptureFrom(url, q + n).Some? then CaptureFrom(url, q + n) else CaptureFrom(url, q)
  }

  /** The regular expression tried at every start position from `p` on, leftmost first. */
  function MatchFrom(url: string, p: nat): (r: Option<string>)
    decreases |url| - p
  {
    if p + |UploadSegment| > |url| then None
    else if OccursAt(url, UploadSegment, p) && CaptureAfterUpload(url, p + |UploadSegment|).Some? then
      CaptureAfterUpload(url, p + |UploadSegment|)
    else MatchFrom(url, p + 1)
  }

  /** The capture comes from a `/upload/` occurrence at or after `p`, right after it or after its version segment. */
  predicate CapturedAt(url: string, id: string, p: nat) {
    && OccursAt(url, UploadSegment, p)
    && (CaptureFrom(url, p + 8) == Some(id)
        || (VersionLength(url, p + 8) > 0 && CaptureFrom(url, p + 8 + VersionLength(url, p + 8)) == Some(id)))
  }

  /** `extractPublicIdFromUrl`: `/\/upload\/(?:v\d+\/)?(.+)\.[a-zA-Z]+$/`, group 1, or null. */
  function ExtractPublicIdFromUrl(url: string): (r: Option<string>)
    ensures r.Some? ==> r.value != [] && NoLineTerminator(r.value)
    ensures r.Some? ==> exists p :: CapturedAt(url, r.value, p)
  {
    MatchFromCaptured(url, 0);
    MatchFrom(url, 0)
  }

  /** Whatever `MatchFrom` returns was captured after some `/upload/` at or after `p`. */
  lemma {:induction false} MatchFromCaptured(url: string, p: nat)
    ensures MatchFrom(url, p).Some? ==> MatchFrom(url, p).value != [] && NoLineTerminator(MatchFrom(url, p).value)
    ensures MatchFrom(url, p).Some? ==> exists q :: q >= p && CapturedAt(url, MatchFrom(url, p).value, q)
    decreases |url| - p
  {
    if p + |UploadSegment| <= |url| {
      if OccursAt(url, UploadSegment, p) && CaptureAfterUpload(url, p + |UploadSegment|).Some? {
        assert CapturedAt(url, MatchFrom(url, p).value, p);
      } else {
        MatchFromCaptured(url, p + 1);
      }
    }
  }

  /** A URL with no `/upload/` segment gives no identifier. */
  lemma {:induction false} NoUploadSegmentNoId(url: string, p: nat)
    requires forall q :: p <= q ==> !OccursAt(url, UploadSegment, q)
    ensures MatchFrom(url, p) == None
    decreases |url| - p
  {
    if p + |UploadSegment| <= |url| {
      NoUploadSegmentNoId(url, p + 1);
    }
  }

  /** The first `/upload/` at which the rest of the pattern matches decides the identifier. */
  lemma {:induction false} FirstUploadDecides(url: string, p: nat, q: nat)
    requires p <= q && OccursAt(url, UploadSegment, q)
    requires CaptureAfterUpload(url, q + 8).Some?
    requires forall k :: p <= k < q ==> !OccursAt(url, UploadSegment, k)
    ensures MatchFrom(url, p) == CaptureAfterUpload(url, q + 8)
    decreases q - p
  {
    if p < q {
      FirstUploadDecides(url, p + 1, q);
    }
  }

  /**
   * When `/upload/` first occurs at `p`, is followed by a version segment, and
   * the URL then ends in `<path>.<ext>`, the identifier is `<path>`: the
   * version segment and the extension are stripped, and only the last
   * extension is.
   */
  lemma VersionedUrl(url: string, p: nat, d: nat)
    requires OccursAt(url, UploadSegment, p)
    requires forall k :: 0 <= k < p ==> !OccursAt(url, UploadSegment, k)
    requires VersionLength(url, p + 8) > 0
    requires p + 8 + VersionLength(url, p + 8) < d && ExtensionAt(url, d)
    requires NoLineTerminator(url[p + 8 + VersionLength(url, p + 8)..d])
    ensures ExtractPublicIdFromUrl(url) == Some(url[p + 8 + VersionLength(url, p + 8)..d])
  {
    FirstUploadDecides(url, 0, p);
  }

  /** Without a version segment after the first `/upload/`, the identifier is everything up to the extension. */
  lemma UnversionedUrl(url: string, p: nat, d: nat)
    requires OccursAt(url, UploadSegment, p)
    requires forall k :: 0 <= k < p ==> !OccursAt(url, UploadSegment, k)
    requires VersionLength(url, p + 8) == 0
    requires p + 8 < d && ExtensionAt(url, d)
    requires NoLineTerminator(url[p + 8..d])
    ensures ExtractPublicIdFromUrl(url) == Some(url[p + 8..d])
  {
    FirstUploadDecides(url, 0, p);
  }

  /** Digits followed by a non-digit: the digits are counted exactly. */
  lemma {:induction false} LeadingDigitsOf(d: string, s: string)
    requires forall i :: 0 <= i < |d| ==> IsDigit(d[i])
    requires s != [] && !IsDigit(s[0])
    ensures LeadingDigits(d + s) == |d|
  {
    if d != [] {
      assert (d + s)[1..] == d[1..] + s;
      LeadingDigitsOf(d[1..], s);
    } else {
      assert d + s == s;
    }
  }

  /** Letters preceded by a non-letter: the letters are counted exactly. */
  lemma {:induction false} TrailingLettersOf(s: string, e: string)
    requires forall i :: 0 <= i < |e| ==> IsAsciiLetter(e[i])
    requires s != [] && !IsAsciiLetter(s[|s| - 1])
    ensures TrailingLetters(s + e) == |e|
  {
    if e != [] {
      assert (s + e)[..|s + e| - 1] == s + e[..|e| - 1];
      TrailingLettersOf(s, e[..|e| - 1]);
    } else {
      assert s + e == s;
    }
  }

  /** The middle part of a three-part concatenation. */
  lemma MiddleSlice(a: string, b: string, c: string)
    ensures (a + b + c)[|a|..|a| + |b|] == b
  {
  }

  /** `<pre>/upload/v<digits>/<path>.<ext>`. */
  function VersionedUrlOf(pre: string, digits: string, path: string, ext: string): string {
    pre + "/upload/v" + digits + "/" + path + "." + ext
  }

  /** The version segment of such a URL spans `v`, the digits and the slash. */
  lemma PartsVersion(pre: string, digits: string, path: string, ext: string)
    requires digits != [] && forall i :: 0 <= i < |digits| ==> IsDigit(digits[i])
    ensures var url := VersionedUrlOf(pre, digits, path, ext);
      OccursAt(url, UploadSegment, |pre|) && VersionLength(url, |pre| + 8) == |digits| + 2
  {
    var url := VersionedUrlOf(pre, digits, path, ext);
    var p := |pre|;
    var rest := "/" + path + "." + ext;
    assert url == pre + "/upload/" + ("v" + digits + rest);
    assert url[p + 9..] == digits + rest;
    LeadingDigitsOf(digits, rest);
  }

  /** Its extension is the one after the last dot. */
  lemma PartsExtension(pre: string, digits: string, path: string, ext: string)
    requires ext != [] && forall i :: 0 <= i < |ext| ==> IsAsciiLetter(ext[i])
    ensures var url := VersionedUrlOf(pre, digits, path, ext);
      |url| == |pre| + 11 + |digits| + |path| + |ext| && ExtensionAt(url, |url| - |ext| - 1)
  {
    var url := VersionedUrlOf(pre, digits, path, ext);
    var body := pre + "/upload/v" + digits + "/" + path + ".";
    assert url == body + ext;
    TrailingLettersOf(body, ext);
  }

  /** Its path lies between the version segment and the extension. */
  lemma PartsPath(pre: string, digits: string, path: string, ext: string)
    ensures var url := VersionedUrlOf(pre, digits, path, ext);
      |url| == |pre| + 11 + |digits| + |path| + |ext| && url[|pre| + 10 + |digits|..|pre| + 10 + |digits| + |path|] == path
  {
    var head := pre + "/upload/v" + digits + "/";
    assert VersionedUrlOf(pre, digits, path, ext) == head + path + ("." + ext);
    MiddleSlice(head, path, "." + ext);
  }

  /**
   * A URL built as `<pre>/upload/v<digits>/<path>.<ext>`, with no earlier
   * `/upload/`, yields exactly `<path>`.
   */
  lemma VersionedUrlParts(pre: string, digits: string, path: string, ext: string)
    requires digits != [] && forall i :: 0 <= i < |digits| ==> IsDigit(digits[i])
    requires path != [] && NoLineTerminator(path)
    requires ext != [] && forall i :: 0 <= i < |ext| ==> IsAsciiLetter(ext[i])
    requires forall k :: 0 <= k < |pre| ==> !OccursAt(VersionedUrlOf(pre, digits, path, ext), UploadSegment, k)
    ensures ExtractPublicIdFromUrl(VersionedUrlOf(pre, digits, path, ext)) == Some(path)
  {
    var url := VersionedUrlOf(pre, digits, path, ext);
    PartsVersion(pre, digits, path, ext);
    PartsExtension(pre, digits, path, ext);
    PartsPath(pre, digits, path, ext);
    var p := |pre|;
    var d := |url| - |ext| - 1;
    assert p + 8 + VersionLength(url, p + 8) < d;
    assert url[p + 8 + VersionLength(url, p + 8)..d] == path;
    VersionedUrl(url, p, d);
  }

  /** No `/` of `s` is directly followed by `u`. */
  predicate NoSlashU(s: string) {
    forall k :: 0 <= k < |s| - 1 ==> !(s[k] == '/' && s[k + 1] == 'u')
  }

  /** A prefix where no `/` is followed by `u` cannot hold the start of `/upload/`. */
  lemma NoUploadBefore(pre: string, digits: string, path: string, ext: string)
    requires NoSlashU(pre)
    ensures forall k :: 0 <= k < |pre| ==> !OccursAt(VersionedUrlOf(pre, digits, path, ext), UploadSegment, k)
  {
    var s := VersionedUrlOf(pre, digits, path, ext);
    assert s == pre + ("/upload/v" + digits + "/" + path + "." + ext);
    forall k | 0 <= k < |pre| ensures !OccursAt(s, UploadSegment, k) {
      assert s[k] == pre[k];
      if k + 1 < |pre| {
        assert s[k + 1] == pre[k + 1];
      } else {
        assert s[k + 1] == '/';
      }
      assert !(s[k] == '/' && s[k + 1] == 'u');
      if k + 8 <= |s| {
        var w := s[k..k + 8];
        assert w[0] == s[k] && w[1] == s[k + 1];
        assert UploadSegment[0] == '/' && UploadSegment[1] == 'u';
        assert w != UploadSegment;
      }
    }
  }

  /** `https://res.cloudinary.com/moncompte/image`, the host of the documented example, written around its one `u`. */
  const ExamplePrefix := "https://res.clo" + "u" + "dinary.com/moncompte/image"

  /** A single `u` after a character other than `/`, in a string with no other `u`, leaves no `/` followed by `u`. */
  lemma NoSlashUAround(a: string, b: string)
    requires 'u' !in a && 'u' !in b && a != [] && a[|a| - 1] != '/'
    ensures NoSlashU(a + "u" + b)
  {
    var p := a + "u" + b;
    forall k | 0 <= k < |p| - 1 ensures !(p[k] == '/' && p[k + 1] == 'u') {
      if k + 1 < |a| {
        assert p[k + 1] == a[k + 1];
      } else if k + 1 == |a| {
        assert p[k] == a[k];
      } else {
        assert p[k + 1] == b[k - |a|];
      }
    }
  }

  /**
   * The example the source documents,
   * `https://res.cloudinary.com/moncompte/image/upload/v123456/monfolder/monimage.jpg`:
   * the version segment and the extension are stripped, the folder kept.
   */
  lemma DocumentedExample()
    ensures ExtractPublicIdFromUrl(VersionedUrlOf(ExamplePrefix, "123456", "monfolder/monimage", "jpg")) == Some("monfolder/monimage")
  {
    NoSlashUAround("https://res.clo", "dinary.com/moncompte/image");
    NoUploadBefore(ExamplePrefix, "123456", "monfolder/monimage", "jpg");
    assert forall c :: c in "123456" ==> IsDigit(c);
    assert forall c :: c in "jpg" ==> IsAsciiLetter(c);
    assert forall c :: c in "monfolder/monimage" ==> !IsLineTerminator(c);
    VersionedUrlParts(ExamplePrefix, "123456", "monfolder/monimage", "jpg");
  }

  /** What `fetch('/api/deleteImage', …)` gives back: a thrown error, or a response whose body may not be JSON. */
  datatype ProxyReply = Threw | Reply(ok: bool, body: ReplyBody)

  /** The parsed body: not JSON (`response.json()` throws), or its `success` member, if any. */
  datatype ReplyBody = NotJson | Json(success: Option<Value>)

  /** The backend after `deleteImageFromCloudinary(imageUrl)`: one request to the proxy exactly when an identifier was derived. */
  function ImageDeletion(db: Db, imageUrl: string): (r: Db)
    ensures ExtractPublicIdFromUrl(imageUrl).None? ==> r == db
    ensures ExtractPublicIdFromUrl(imageUrl).Some? ==>
      r == db.(trace := db.trace + [DeleteImageRequest(ExtractPublicIdFromUrl(imageUrl).value)])
  {
    match ExtractPublicIdFromUrl(imageUrl)
    case None => db
    case Some(publicId) => Issue(db, DeleteImageRequest(publicId), true)
  }

  /** `deleteImageFromCloudinary`: no identifier, no request; otherwise true only for an ok response whose body says `success: true`. */
  method DeleteImageFromCloudinary(store: Store, imageUrl: string, reply: ProxyReply) returns (deleted: bool)
    modifies store
    ensures store.State() == ImageDeletion(old(store.State()), imageUrl)
    ensures deleted <==> ExtractPublicIdFromUrl(imageUrl).Some? && reply == Reply(true, Json(Some(Bool(true))))
  {
    var publicId := ExtractPublicIdFromUrl(imageUrl);
    if publicId.None? || publicId.value == "" {
      return false;
    }
    store.RequestImageDeletion(publicId.value);
    match reply
    case Threw =>
      return false;
    case Reply(ok, body) =>
      if !ok {
        return false;
      }
      match body
      case NotJson =>
        return false;
      case Json(success) =>
        return success == Some(Bool(true));
  }
}
