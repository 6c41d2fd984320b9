/** The per-credential trust-boundary object: a single cache slot that lookups fill, that
    clearing and refreshing empty, and whose encoded locations are put into request metadata.
    Each method updates the object in place and is proved against the pure transitions of
    `TrustBoundarySpec`.
 */
module TrustBoundary {
  import opened TrustBoundarySpec

  /** A request-metadata map owned by the caller, which the object may update in place. */
  class RequestMetadata {
    var entries: map<string, seq<string>>

    constructor (entries: map<string, seq<string>>)
      ensures this.entries == entries
    {
      this.entries := entries;
    }
  }

  class TrustBoundaryInfo {
    /** The credential's lookup endpoint, read once at construction; None when the credential
        has none. */
    const lookupUrl: Option<string>
    /** The cache slot. */
    var cachedResponse: Option<TrustBoundaryResponse>
    /** Every request this object has sent, oldest first. */
    ghost var requestsSent: seq<HttpRequest>

    /** The slot only ever holds a response that passed the rejection rule. */
    ghost predicate Valid()
      reads this
    {
      CacheHoldsComplete(cachedResponse)
    }

    /** The object for a credential whose lookup endpoint is `lookupUrl`. */
    constructor (lookupUrl: Option<string>)
      ensures Valid()
      ensures this.lookupUrl == lookupUrl && cachedResponse == None && requestsSent == []
      ensures GetAllowedLocations() == None && GetEncodedAllowedLocations() == None
    {
      this.lookupUrl := lookupUrl;
      cachedResponse := None;
      requestsSent := [];
    }

    /** `lookupTrustBoundary`, with the credential's current token and the transport's answer
        as parameters. */
    method LookupTrustBoundary(accessToken: Option<AccessToken>, reply: HttpReply) returns (result: LookupResult)
      modifies this
      ensures old(Valid()) ==> Valid()
      ensures var s := Lookup(lookupUrl, old(cachedResponse), accessToken, reply);
              && cachedResponse == s.cache
              && result == s.result
              && requestsSent == old(requestsSent) + (if s.sent.Some? then [s.sent.value] else [])
      // After a lookup that returned a response, the getters show its fields.
      ensures result.Returned? && result.response.Some? ==>
                && cachedResponse == result.response
                && GetAllowedLocations() == result.response.value.locations
                && GetEncodedAllowedLocations() == result.response.value.encodedLocations
    {
      if lookupUrl.None? {
        return Returned(None);
      }
      if cachedResponse.Some? {
        return Returned(cachedResponse);
      }
      if accessToken.None? || accessToken.value.tokenValue.None? {
        return Returned(None);
      }
      var request := BearerGet(lookupUrl.value, accessToken.value.tokenValue.value);
      requestsSent := requestsSent + [request];
      match reply {
        case TransportFailure =>
          result := Threw(GoogleAuthException(true, IOException));
        case Reply(status, body) =>
          if !IsSuccessStatus(status) {
            // `execute` throws for the status; the outer catch wraps it
            result := Threw(GoogleAuthException(true, HttpResponseException(status)));
          } else if status == StatusOk {
            match body {
              case Malformed =>
                // thrown as retryable, then caught and wrapped again by the outer catch
                result := Threw(GoogleAuthException(true, GoogleAuthException(true, IOException)));
              case Parsed(response) =>
                if MissingRequiredFields(response) {
                  return Returned(None);
                }
                cachedResponse := Some(response);
                return Returned(Some(response));
            }
          } else {
            result := Returned(None);
          }
      }
    }

    /** `getAllowedLocations`: null when the slot is empty, else the cached list (itself
        possibly null), in the order it was received. */
    function GetAllowedLocations(): (r: Option<seq<string>>)
      reads this
      ensures cachedResponse.None? ==> r.None?
      ensures cachedResponse.Some? ==> r == cachedResponse.value.locations
    {
      if cachedResponse.Some? then cachedResponse.value.locations else None
    }

    /** `getEncodedAllowedLocations`: null when the slot is empty, else the cached encoded form. */
    function GetEncodedAllowedLocations(): (r: Option<string>)
      reads this
      ensures cachedResponse.None? ==> r.None?
      ensures cachedResponse.Some? ==> r == cachedResponse.value.encodedLocations
    {
      if cachedResponse.Some? then cachedResponse.value.encodedLocations else None
    }

    /** `addTrustBoundaryToRequestMetadata` as written: a null map throws; otherwise the caller's
        map gains the header and the returned copy is the map from before the call. */
    method AddTrustBoundaryToRequestMetadata(requestMetadata: RequestMetadata?) returns (result: MetadataResult)
      modifies requestMetadata
      ensures requestMetadata == null ==> result == MetadataAsWritten(cachedResponse, None).returned
      ensures requestMetadata != null ==>
                var c := MetadataAsWritten(cachedResponse, Some(old(requestMetadata.entries)));
                result == c.returned && Some(requestMetadata.entries) == c.argument
    {
      var response := cachedResponse;
      if requestMetadata == null {
        return NullPointerException;
      }
      var newRequestMetadata := requestMetadata.entries;
      if response.Some? && response.value.encodedLocations.Some? {
        requestMetadata.entries := requestMetadata.entries[AllowedLocationsHeader := [response.value.encodedLocations.value]];
      }
      result := Copied(newRequestMetadata);
    }

    /** `addTrustBoundaryToRequestMetadata` as intended: a null map counts as empty, and the
        copy is taken after the header is put, so the caller's map and the result agree. */
    method AddTrustBoundaryToRequestMetadataCorrected(requestMetadata: RequestMetadata?) returns (result: MetadataResult)
      modifies requestMetadata
      ensures requestMetadata == null ==> result == MetadataCorrected(cachedResponse, None).returned
      ensures requestMetadata != null ==>
                var c := MetadataCorrected(cachedResponse, Some(old(requestMetadata.entries)));
                result == c.returned && Some(requestMetadata.entries) == c.argument
    {
      var response := cachedResponse;
      var entries := if requestMetadata == null then map[] else requestMetadata.entries;
      if response.Some? && response.value.encodedLocations.Some? {
        entries := entries[AllowedLocationsHeader := [response.value.encodedLocations.value]];
      }
      if requestMetadata != null {
        requestMetadata.entries := entries;
      }
      result := Copied(entries);
    }

    /** `clearCache`: the slot becomes empty and both getters return null. */
    method ClearCache()
      modifies this
      ensures Valid()
      ensures cachedResponse == None && requestsSent == old(requestsSent)
      ensures GetAllowedLocations() == None && GetEncodedAllowedLocations() == None
    {
      cachedResponse := None;
    }

    /** `refreshTrustBoundary`: empty the slot and look up again; the lookup's value is
        dropped and its exception, if any, is passed on. */
    method RefreshTrustBoundary(accessToken: Option<AccessToken>, reply: HttpReply) returns (thrown: Option<Exception>)
      modifies this
      ensures Valid()
      ensures var s := Refresh(lookupUrl, accessToken, reply);
              && cachedResponse == s.cache
              && thrown == (if s.result.Threw? then Some(s.result.exception) else None)
              && requestsSent == old(requestsSent) + (if s.sent.Some? then [s.sent.value] else [])
      // It throws exactly when the request it sends fails, gets a non-success status or a
      // malformed 200 body, and then the slot is empty.
      ensures thrown.Some? <==>
                && lookupUrl.Some? && accessToken.Some? && accessToken.value.tokenValue.Some?
                && (reply.TransportFailure? || !IsSuccessStatus(reply.statusCode) || reply == Reply(StatusOk, Malformed))
      ensures thrown.Some? ==> thrown.value.GoogleAuthException? && thrown.value.retryable && cachedResponse.None?
      // Unless the fresh lookup stored a response, the getters return null afterwards.
      ensures cachedResponse.None? ==> GetAllowedLocations() == None && GetEncodedAllowedLocations() == None
    {
      cachedResponse := None;
      var result := LookupTrustBoundary(accessToken, reply);
      thrown := if result.Threw? then Some(result.exception) else None;
    }
  }

  /** A lookup that stores a response makes the getters show it, and a clear afterwards makes
      both return null again. */
  method ClearCacheRemovesData(url: string, token: string, r: TrustBoundaryResponse)
    returns (locationsBefore: Option<seq<string>>, encodedBefore: Option<string>,
             locationsAfter: Option<seq<string>>, encodedAfter: Option<string>)
    requires !MissingRequiredFields(r)
    ensures locationsBefore == r.locations && encodedBefore == r.encodedLocations
    ensures locationsAfter == None && encodedAfter == None
  {
    var info := new TrustBoundaryInfo(Some(url));
    var result := info.LookupTrustBoundary(Some(AccessToken(Some(token))), Reply(StatusOk, Parsed(r)));
    locationsBefore, encodedBefore := info.GetAllowedLocations(), info.GetEncodedAllowedLocations();
    info.ClearCache();
    locationsAfter, encodedAfter := info.GetAllowedLocations(), info.GetEncodedAllowedLocations();
  }

  /** Under the slot invariant the getters reveal whether the slot is filled: it is exactly when
      the location list is non-empty or the encoded form is present. */
  lemma GettersRevealCache(info: TrustBoundaryInfo)
    requires info.Valid()
    ensures info.cachedResponse.Some? <==>
              (info.GetAllowedLocations().Some? && |info.GetAllowedLocations().value| > 0)
              || info.GetEncodedAllowedLocations().Some?
  {
  }
}
