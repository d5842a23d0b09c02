/**
 * The serverless deletion proxy (api/deleteImage.ts): it checks the method
 * and the identifier, signs a destroy request for the media host, posts it,
 * and turns the host's answer into a status code. The clock, the key, the
 * secret and SHA-1 are parameters; the one outbound call is an input.
 */
module DeleteImageProxy {
  import opened Wrappers
  import opened Strings

  /** `req.body.publicId` as the handler sees it: no body to destructure, no member, a string, or a value of another type. */
  datatype PublicIdField = NoBody | Absent | Text(s: string) | NotText

  datatype Request = Request(httpMethod: string, publicId: PublicIdField)

  /** The destroy call: it threw (network error, or a body that is not JSON), or answered with a `result`. */
  datatype DestroyReply = DestroyThrew | DestroyResult(result: string)

  /** One field of the form body posted to the destroy endpoint. */
  datatype Param = Param(name: string, value: string)

  /** The JSON the handler answers with. */
  datatype Body =
    | ErrorBody(error: string)
    | SuccessBody(message: string, result: string)
    | CdnErrorBody(error: string, details: string)

  datatype Response = Response(status: int, body: Body)

  /** What one request leads to: the form posted to the media host, if any, and the response. */
  datatype Exchange = Exchange(destroy: Option<seq<Param>>, response: Response)

  const MethodNotAllowed := "Méthode non autorisée"
  const InvalidPublicId := "publicId manquant ou invalide"
  const InternalError := "Erreur interne"
  const CdnError := "Erreur Cloudinary"
  const ImageDeleted := "Image supprimée"

  /** `Math.floor(Date.now() / 1000)`: whole seconds of a millisecond clock. */
  function Timestamp(nowMs: nat): (t: nat)
    ensures t * 1000 <= nowMs < (t + 1) * 1000
  {
    nowMs / 1000
  }

  /** `` `public_id=${publicId}&timestamp=${timestamp}${secret}` ``: the secret follows with no separator. */
  function StringToSign(publicId: string, timestamp: nat, secret: string): string {
    "public_id=" + publicId + "&timestamp=" + NatToString(timestamp) + secret
  }

  /** The form body, fields in this order: `public_id`, `timestamp`, `api_key`, `signature`. */
  function DestroyParams(publicId: string, timestamp: nat, apiKey: string, signature: string): seq<Param> {
    [Param("public_id", publicId), Param("timestamp", NatToString(timestamp)),
     Param("api_key", apiKey), Param("signature", signature)]
  }

  /** `handler(req, res)`. */
  function Handler(req: Request, nowMs: nat, apiKey: string, apiSecret: string, sha1: string -> string, reply: DestroyReply): (r: Exchange)
    ensures req.httpMethod != "DELETE" <==> r.response.status == 405
    ensures r.destroy.Some? <==> req.httpMethod == "DELETE" && req.publicId.Text? && req.publicId.s != ""
    ensures r.destroy.Some? ==>
      var ts := Timestamp(nowMs);
      r.destroy.value == DestroyParams(req.publicId.s, ts, apiKey, sha1(StringToSign(req.publicId.s, ts, apiSecret)))
    ensures r.response.status == 200 <==> r.destroy.Some? && reply == DestroyResult("ok")
    ensures r.response.status == 200 ==> r.response.body == SuccessBody(ImageDeleted, "ok")
    ensures req.httpMethod == "DELETE" && (req.publicId.Absent? || req.publicId.NotText? || req.publicId == Text("")) ==>
      r.response == Response(400, ErrorBody(InvalidPublicId))
    ensures r.destroy.Some? && reply.DestroyResult? && reply.result != "ok" ==> r.response.status == 400
    ensures r.response.status == 500 <==> req.httpMethod == "DELETE" && (req.publicId.NoBody? || (r.destroy.Some? && reply.DestroyThrew?))
  {
    if req.httpMethod != "DELETE" then
      Exchange(None, Response(405, ErrorBody(MethodNotAllowed)))
    else
      match req.publicId
      case NoBody => Exchange(None, Response(500, ErrorBody(InternalError)))
      case Absent => Exchange(None, Response(400, ErrorBody(InvalidPublicId)))
      case NotText => Exchange(None, Response(400, ErrorBody(InvalidPublicId)))
      case Text(publicId) =>
        if publicId == "" then Exchange(None, Response(400, ErrorBody(InvalidPublicId)))
        else
          var timestamp := Timestamp(nowMs);
          var signature := sha1(StringToSign(publicId, timestamp, apiSecret));
          var params := DestroyParams(publicId, timestamp, apiKey, signature);
          match reply
          case DestroyThrew => Exchange(Some(params), Response(500, ErrorBody(InternalError)))
          case DestroyResult(result) =>
            if result == "ok" then Exchange(Some(params), Response(200, SuccessBody(ImageDeleted, result)))
            else Exchange(Some(params), Response(400, CdnErrorBody(CdnError, result)))
  }

  /** A common prefix and a common suffix cancel. */
  lemma CancelAround(a: string, x: string, y: string, b: string)
    requires a + x + b == a + y + b
    ensures x == y
  {
    var s := a + x + b;
    assert |x| == |y|;
    assert x == s[|a|..|a| + |x|];
    assert y == (a + y + b)[|a|..|a| + |y|];
  }

  /**
   * Two signing strings for the same identifier and secret are equal only when
   * their timestamps are: a signature made at one second cannot be replayed
   * under another timestamp without the secret.
   */
  lemma StringToSignSeparatesTimestamps(publicId: string, t1: nat, t2: nat, secret: string)
    requires StringToSign(publicId, t1, secret) == StringToSign(publicId, t2, secret)
    ensures t1 == t2
  {
    var a := "public_id=" + publicId + "&timestamp=";
    assert StringToSign(publicId, t1, secret) == a + NatToString(t1) + secret;
    assert StringToSign(publicId, t2, secret) == a + NatToString(t2) + secret;
    CancelAround(a, NatToString(t1), NatToString(t2), secret);
    NatToStringInjective(t1, t2);
  }

  /** The signing string is the decimal timestamp of the clock, framed by the identifier and followed by the secret. */
  lemma StringToSignLayout(publicId: string, nowMs: nat, secret: string)
    ensures var s := StringToSign(publicId, Timestamp(nowMs), secret);
      && s[..10] == "public_id="
      && s[10..10 + |publicId|] == publicId
      && s[|s| - |secret|..] == secret
      && ParseDecimal(s[10 + |publicId| + 11..|s| - |secret|]) == nowMs / 1000
  {
    var digits := NatToString(Timestamp(nowMs));
    var s := StringToSign(publicId, Timestamp(nowMs), secret);
    assert s == "public_id=" + publicId + "&timestamp=" + digits + secret;
    assert s[10 + |publicId| + 11..|s| - |secret|] == digits;
    ParseNatToString(Timestamp(nowMs));
  }
}
