/** Values and pure rules of the trust-boundary cache of a credential.

    A trust boundary is the set of regions an identity may use. A credential asks a lookup
    endpoint for it once, keeps the answer in a single cache slot, and copies its encoded form
    into the metadata of outgoing requests. This module holds the data model and, as pure
    functions, the state transitions that the class `TrustBoundary.TrustBoundaryInfo` performs
    in place; the HTTP transport and the JSON decoder are represented by their outcomes.
 */
module TrustBoundarySpec {

  datatype Option<+T> = None | Some(value: T)

  /** Request-metadata key that carries the encoded allowed locations. */
  const AllowedLocationsHeader: string := "x-goog-allowed-resources"

  /** Status code of the only reply that is decoded. */
  const StatusOk: int := 200

  /** The statuses the HTTP client treats as success; executing a request that gets any other
      status throws an HttpResponseException, an IOException. */
  predicate IsSuccessStatus(status: int) {
    200 <= status < 300
  }

  /** The decoded body of a lookup reply; a JSON field that is absent (Java null) is None. */
  datatype TrustBoundaryResponse = TrustBoundaryResponse(
    locations: Option<seq<string>>,
    encodedLocations: Option<string>)

  /** The rejection rule applied to a decoded reply: no non-empty location list and no
      encoded form. */
  predicate MissingRequiredFields(r: TrustBoundaryResponse) {
    (r.locations.None? || |r.locations.value| == 0) && r.encodedLocations.None?
  }

  /** The cache slot is empty or holds a response that passed the rejection rule. */
  predicate CacheHoldsComplete(cache: Option<TrustBoundaryResponse>) {
    cache.Some? ==> !MissingRequiredFields(cache.value)
  }

  /** An access token as the credential reports it; its value may be null. */
  datatype AccessToken = AccessToken(tokenValue: Option<string>)

  /** What is sent to the lookup endpoint. */
  datatype HttpRequest = HttpRequest(httpMethod: string, url: string, authorization: string)

  function BearerGet(url: string, token: string): HttpRequest {
    HttpRequest("GET", url, "Bearer " + token)
  }

  /** What the JSON decoder makes of a 200 reply's body: a response, or an IOException. */
  datatype ParseResult = Parsed(response: TrustBoundaryResponse) | Malformed

  /** What the transport answers: the final status and body (after any redirects the HTTP
      client follows), or an IOException. The body is only decoded when the status is 200. */
  datatype HttpReply = Reply(statusCode: int, body: ParseResult) | TransportFailure

  /** The exceptions that leave the lookup: a plain IOException, the HttpResponseException
      (an IOException) that executing a request with a non-success status throws, or a
      GoogleAuthException (itself an IOException) with its retryable flag and its cause. */
  datatype Exception =
    | IOException
    | HttpResponseException(statusCode: int)
    | GoogleAuthException(retryable: bool, cause: Exception)

  /** How a lookup ends: it returns a response or null, or it throws. */
  datatype LookupResult = Returned(response: Option<TrustBoundaryResponse>) | Threw(exception: Exception)

  /** The effect of one lookup: the new cache slot, the request sent (if any) and the outcome. */
  datatype LookupStep = LookupStep(
    cache: Option<TrustBoundaryResponse>,
    sent: Option<HttpRequest>,
    result: LookupResult)

  /** The body of the `try` around `request.execute()`, before its `catch`: a transport failure
      surfaces as an IOException, a non-success status makes `execute` throw, a success status
      other than 200 is a soft null, a malformed body is rethrown as a retryable
      GoogleAuthException, a decoded body is rejected or accepted. */
  function Execute(reply: HttpReply): LookupResult {
    match reply
    case TransportFailure => Threw(IOException)
    case Reply(status, body) =>
      if !IsSuccessStatus(status) then Threw(HttpResponseException(status))
      else if status != StatusOk then Returned(None)
      else match body
        case Malformed => Threw(GoogleAuthException(true, IOException))
        case Parsed(r) => if MissingRequiredFields(r) then Returned(None) else Returned(Some(r))
  }

  /** The outer `catch (IOException e)`: every exception thrown inside the `try`, the
      GoogleAuthException of a malformed body included, is wrapped in a new retryable
      GoogleAuthException. */
  function CatchIOException(result: LookupResult): LookupResult {
    match result
    case Returned(_) => result
    case Threw(e) => Threw(GoogleAuthException(true, e))
  }

  /** One `lookupTrustBoundary` call against the slot `cache`, for a credential whose lookup
      URL is `lookupUrl` and whose current token is `accessToken`; `reply` is what the
      transport would answer if a request were sent. */
  function Lookup(lookupUrl: Option<string>, cache: Option<TrustBoundaryResponse>,
                  accessToken: Option<AccessToken>, reply: HttpReply): (s: LookupStep)
    // No URL: null, no request, the slot untouched (even when populated).
    ensures lookupUrl.None? ==> s == LookupStep(cache, None, Returned(None))
    // A populated slot is returned as it is, without a request.
    ensures lookupUrl.Some? && cache.Some? ==> s == LookupStep(cache, None, Returned(cache))
    // A request goes out exactly when there is a URL, an empty slot and a non-null token value,
    // and it is a GET of the URL carrying that token as a bearer credential.
    ensures s.sent.Some? <==>
              lookupUrl.Some? && cache.None? && accessToken.Some? && accessToken.value.tokenValue.Some?
    ensures s.sent.Some? ==>
              s.sent.value == BearerGet(lookupUrl.value, accessToken.value.tokenValue.value)
    // Without a request the call returns null or the cached value and changes nothing.
    ensures s.sent.None? ==> s.cache == cache && s.result == Returned(if lookupUrl.Some? then cache else None)
    // The slot is only ever written with a complete response taken from a 200 reply,
    // and that same response is returned.
    ensures s.cache != cache ==>
              && cache.None? && s.sent.Some? && s.cache.Some?
              && !MissingRequiredFields(s.cache.value)
              && reply == Reply(StatusOk, Parsed(s.cache.value))
              && s.result == Returned(s.cache)
    // A decoded 200 reply is stored and returned exactly when it is complete.
    ensures s.sent.Some? && reply.Reply? && reply.statusCode == StatusOk && reply.body.Parsed? ==>
              var r := reply.body.response;
              && (s.cache == Some(r) <==> !MissingRequiredFields(r))
              && s.result == Returned(if MissingRequiredFields(r) then None else Some(r))
    // A success status other than 200 is a soft null that leaves the slot empty.
    ensures s.sent.Some? && reply.Reply? && IsSuccessStatus(reply.statusCode) && reply.statusCode != StatusOk ==>
              s.result == Returned(None) && s.cache == None
    // A non-success status throws, wrapping the client's HttpResponseException for that status.
    ensures s.sent.Some? && reply.Reply? && !IsSuccessStatus(reply.statusCode) ==>
              s.result == Threw(GoogleAuthException(true, HttpResponseException(reply.statusCode)))
    // The call throws exactly on a transport failure, a non-success status or a malformed 200
    // body, always with a retryable GoogleAuthException, and then the slot stays empty.
    ensures s.result.Threw? <==>
              s.sent.Some? && (reply.TransportFailure?
                               || !IsSuccessStatus(reply.statusCode)
                               || reply == Reply(StatusOk, Malformed))
    ensures s.result.Threw? ==>
              s.result.exception.GoogleAuthException? && s.result.exception.retryable && s.cache == cache
  {
    if lookupUrl.None? then LookupStep(cache, None, Returned(None))
    else if cache.Some? then LookupStep(cache, None, Returned(cache))
    else if accessToken.None? || accessToken.value.tokenValue.None? then LookupStep(cache, None, Returned(None))
    else
      var request := BearerGet(lookupUrl.value, accessToken.value.tokenValue.value);
      var result := CatchIOException(Execute(reply));
      LookupStep(if result.Returned? then result.response else cache, Some(request), result)
  }

  /** `refreshTrustBoundary`: empty the slot, then look up again. The old contents of the slot
      play no part, which is why they are not a parameter. */
  function Refresh(lookupUrl: Option<string>, accessToken: Option<AccessToken>, reply: HttpReply): (s: LookupStep)
    // The slot ends populated exactly when the fresh lookup returned a response ...
    ensures s.cache.Some? <==> s.result.Returned? && s.result.response.Some?
    // ... and then it holds the freshly fetched, complete response.
    ensures s.cache.Some? ==>
              && s.result == Returned(s.cache)
              && s.sent.Some?
              && !MissingRequiredFields(s.cache.value)
              && reply == Reply(StatusOk, Parsed(s.cache.value))
    // A refresh with a URL and a token value always sends a request.
    ensures s.sent.Some? <==> lookupUrl.Some? && accessToken.Some? && accessToken.value.tokenValue.Some?
    ensures s.sent.Some? ==> s.sent.value == BearerGet(lookupUrl.value, accessToken.value.tokenValue.value)
    // It throws exactly when the request it sends fails in transport, gets a non-success status
    // or a malformed 200 body; the exception is a retryable GoogleAuthException and the slot
    // is left empty.
    ensures s.result.Threw? <==>
              s.sent.Some? && (reply.TransportFailure?
                               || !IsSuccessStatus(reply.statusCode)
                               || reply == Reply(StatusOk, Malformed))
    ensures s.result.Threw? ==>
              s.result.exception.GoogleAuthException? && s.result.exception.retryable && s.cache == None
  {
    Lookup(lookupUrl, None, accessToken, reply)
  }

  /** The slot holds a response whose encoded locations are present. */
  predicate CarriesEncodedLocations(cache: Option<TrustBoundaryResponse>) {
    cache.Some? && cache.value.encodedLocations.Some?
  }

  /** A request-metadata map after the trust-boundary header has been put into it. */
  function WithAllowedLocations(cache: Option<TrustBoundaryResponse>, entries: map<string, seq<string>>)
    : (r: map<string, seq<string>>)
    // With an encoded form cached, the header maps to exactly that one value ...
    ensures CarriesEncodedLocations(cache) ==>
              AllowedLocationsHeader in r && r[AllowedLocationsHeader] == [cache.value.encodedLocations.value]
    // ... every other key keeps its value and no other key appears.
    ensures forall k :: k in entries && k != AllowedLocationsHeader ==> k in r && r[k] == entries[k]
    ensures forall k :: k in r ==> k in entries || k == AllowedLocationsHeader
    // Without one, the map is unchanged.
    ensures !CarriesEncodedLocations(cache) ==> r == entries
  {
    if CarriesEncodedLocations(cache) then
      entries[AllowedLocationsHeader := [cache.value.encodedLocations.value]]
    else
      entries
  }

  /** What `addTrustBoundaryToRequestMetadata` hands back: a copy of a map, or the
      NullPointerException of copying a null map. */
  datatype MetadataResult = Copied(entries: map<string, seq<string>>) | NullPointerException

  /** The returned value and the caller's map afterwards (None for a null argument). */
  datatype MetadataCall = MetadataCall(returned: MetadataResult, argument: Option<map<string, seq<string>>>)

  /** `addTrustBoundaryToRequestMetadata` as written: the copy is taken before the header is put,
      and the header is put into the caller's map. */
  function MetadataAsWritten(cache: Option<TrustBoundaryResponse>, argument: Option<map<string, seq<string>>>)
    : (c: MetadataCall)
    // A null map throws and nothing is written.
    ensures argument.None? ==> c == MetadataCall(NullPointerException, None)
    // Otherwise the caller gets back its map as it was before the call ...
    ensures argument.Some? ==> c.returned == Copied(argument.value)
    // ... while its own map gains the header.
    ensures argument.Some? ==> c.argument == Some(WithAllowedLocations(cache, argument.value))
  {
    match argument
    case None => MetadataCall(NullPointerException, None)
    case Some(m) => MetadataCall(Copied(m), Some(WithAllowedLocations(cache, m)))
  }

  /** `addTrustBoundaryToRequestMetadata` as its documentation and tests intend it: a null map
      is treated as empty, and the copy is taken after the header is put. */
  function MetadataCorrected(cache: Option<TrustBoundaryResponse>, argument: Option<map<string, seq<string>>>)
    : (c: MetadataCall)
    // It never throws ...
    ensures c.returned.Copied?
    // ... it returns the augmented metadata ...
    ensures c.returned.entries == WithAllowedLocations(cache, if argument.Some? then argument.value else map[])
    // ... and the caller's map, when there is one, is exactly what was returned.
    ensures argument.Some? ==> c.argument == Some(c.returned.entries)
    ensures argument.None? ==> c.argument.None?
  {
    match argument
    case None => MetadataCall(Copied(WithAllowedLocations(cache, map[])), None)
    case Some(m) =>
      var updated := WithAllowedLocations(cache, m);
      MetadataCall(Copied(updated), Some(updated))
  }

  /** As written, the returned copy misses the header whenever one is put and it was not
      already there with that value. */
  lemma AsWrittenReturnsStaleCopy(cache: Option<TrustBoundaryResponse>, m: map<string, seq<string>>)
    requires CarriesEncodedLocations(cache)
    requires AllowedLocationsHeader !in m || m[AllowedLocationsHeader] != [cache.value.encodedLocations.value]
    ensures MetadataAsWritten(cache, Some(m)).returned != Copied(MetadataAsWritten(cache, Some(m)).argument.value)
    ensures MetadataCorrected(cache, Some(m)).returned == Copied(MetadataCorrected(cache, Some(m)).argument.value)
  {
    var after := WithAllowedLocations(cache, m);
    assert after[AllowedLocationsHeader] == [cache.value.encodedLocations.value];
  }

  /** The concrete case: with "0xA30" cached and an empty map, the caller's map gains the header
      but the returned map is empty. */
  lemma ReturnedMetadataLacksHeader()
    ensures var cache := Some(TrustBoundaryResponse(None, Some("0xA30")));
            var c := MetadataAsWritten(cache, Some(map[]));
            && c.returned == Copied(map[])
            && c.argument == Some(map[AllowedLocationsHeader := ["0xA30"]])
            && MetadataCorrected(cache, Some(map[])).returned == Copied(map[AllowedLocationsHeader := ["0xA30"]])
  {
  }

  /** A null metadata map throws as written, and is treated as empty when corrected. */
  lemma NullMetadataThrows(cache: Option<TrustBoundaryResponse>)
    ensures MetadataAsWritten(cache, None).returned == NullPointerException
    ensures MetadataCorrected(cache, None).returned == Copied(WithAllowedLocations(cache, map[]))
  {
  }

  /** An empty token value is not rejected: it is sent as an empty bearer credential. */
  lemma EmptyTokenIsSent(url: string, reply: HttpReply)
    ensures Lookup(Some(url), None, Some(AccessToken(Some(""))), reply).sent == Some(HttpRequest("GET", url, "Bearer "))
  {
    assert "Bearer " + "" == "Bearer ";
  }

  /** A 500 reply makes the client throw, and the lookup passes that on as a retryable
      GoogleAuthException without caching anything. */
  lemma ServerErrorThrowsRetryable(url: string, token: string, body: ParseResult)
    ensures var s := Lookup(Some(url), None, Some(AccessToken(Some(token))), Reply(500, body));
            && s.result == Threw(GoogleAuthException(true, HttpResponseException(500)))
            && s.cache == None
  {
  }

  /** A 204 reply is a success the lookup does not decode: null, no exception, nothing cached. */
  lemma NoContentReturnsNull(url: string, token: string, body: ParseResult)
    ensures var s := Lookup(Some(url), None, Some(AccessToken(Some(token))), Reply(204, body));
            s.result == Returned(None) && s.cache == None
  {
  }
}
