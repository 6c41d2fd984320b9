# Trust-boundary cache of a Google OAuth2 credential

This project models `TrustBoundaryInfo` from google-auth-library-java. A trust boundary is the set of regions an identity may use. Each credential owns one `TrustBoundaryInfo`. That object:

- looks the trust boundary up once at the credential's lookup endpoint, with a bearer token;
- keeps the answer in a single cache slot;
- exposes the cached `locations` and `encodedLocations`;
- puts the encoded form into outgoing request metadata under `x-goog-allowed-resources`;
- empties the slot on `clearCache`, and on `refreshTrustBoundary` before looking up again.

The project has three parts:

- **`TrustBoundarySpec`** (`trust_boundary_spec.dfy`) holds the data model and the pure transitions:
  - `Lookup` is one `lookupTrustBoundary` call, run against the slot's current contents;
  - `Refresh` is one `refreshTrustBoundary` call;
  - `WithAllowedLocations` is the header put;
  - `MetadataAsWritten` and `MetadataCorrected` are the metadata call as written and as intended.
- **`TrustBoundary`** (`trust_boundary_info.dfy`) holds two classes:
  - `TrustBoundaryInfo` keeps the slot in the field `cachedResponse` and a ghost log of the requests it sent. Its methods update the object in place, and each is proved against the matching pure transition.
  - `RequestMetadata` is the caller's `Map`, which `addTrustBoundaryToRequestMetadata` changes in place.
- **`Lifecycle`** (`lifecycle.dfy`) applies any sequence of lookups, clears and refreshes to the slot. It proves what holds for every such sequence: the slot stays complete, lookups are idempotent once the slot is filled, nothing is sent without a URL, every request is a bearer GET, and a cached value came from a 200 reply.

External inputs become parameters:

- The HTTP transport is represented by its answer, an `HttpReply`: a status and a decoded-or-malformed body, or a transport failure.
- The JSON decoder is represented by a `ParseResult`.
- The credential's current access token is an `Option<AccessToken>` whose `tokenValue` may itself be absent. This covers both a missing token and a null token value.
- The lookup URL is fixed when the object is built, as in the source.

## Model

| member | source | states |
|---|---|---|
| `TrustBoundarySpec.Lookup` | oauth2_http/java/com/google/auth/oauth2/TrustBoundaryInfo.java:107-163 | With no URL: returns null, sends nothing, leaves the slot alone, even a filled one. With a filled slot: returns it unchanged and sends nothing. A request is sent exactly when there is a URL, the slot is empty and the token value is non-null; it is `GET url` with `Authorization: Bearer <token>`. The slot is written only with a complete response from a 200 reply, and that response is returned. A decoded 200 reply is stored exactly when it passes the rejection rule; otherwise the result is null. Another success status (201-299) gives null. A status outside 200-299 throws a retryable `GoogleAuthException` wrapping the client's `HttpResponseException` for that status. The call throws exactly on a transport failure, a status outside 200-299 or a malformed 200 body, always with a retryable `GoogleAuthException`, and the slot stays empty. |
| `TrustBoundarySpec.Refresh` | oauth2_http/java/com/google/auth/oauth2/TrustBoundaryInfo.java:219-225 | The old slot contents play no part. The slot ends filled exactly when the fresh lookup returned a response. It then holds that freshly fetched, complete response from a 200 reply. A request is sent exactly when there is a URL and a token value, and it is the bearer GET. The refresh throws exactly when that request fails in transport, gets a status outside 200-299 or a malformed 200 body; the exception is a retryable `GoogleAuthException` and the slot is left empty. |
| `TrustBoundarySpec.WithAllowedLocations` | oauth2_http/java/com/google/auth/oauth2/TrustBoundaryInfo.java:175-177 | When the slot holds an encoded form E, the header key maps to exactly `[E]`. Every other key keeps its value and no other key appears. Without E the map is unchanged. |
| `TrustBoundarySpec.MetadataAsWritten` | oauth2_http/java/com/google/auth/oauth2/TrustBoundaryInfo.java:171-180 | A null map throws NullPointerException and nothing is written. Otherwise the caller gets back its map as it was before the call, while its own map gains the header. |
| `TrustBoundarySpec.MetadataCorrected` | oauth2_http/java/com/google/auth/oauth2/TrustBoundaryInfo.java:165-180 | Never throws. A null map counts as empty. The returned map is the augmented map, and the caller's map, when there is one, equals what was returned. |
| `TrustBoundarySpec.AsWrittenReturnsStaleCopy` | oauth2_http/java/com/google/auth/oauth2/TrustBoundaryInfo.java:174-179 | For every map and every cached encoded form E not already in the map under the header: as written, the returned copy differs from the caller's updated map. The corrected version makes them equal. |
| `TrustBoundarySpec.ReturnedMetadataLacksHeader` | oauth2_http/java/com/google/auth/oauth2/TrustBoundaryInfo.java:174-176 | Counterexample: with `"0xA30"` cached and an empty map, the caller's map gains `x-goog-allowed-resources: ["0xA30"]` but the returned map is empty. The corrected version returns the header. |
| `TrustBoundarySpec.NullMetadataThrows` | oauth2_http/java/com/google/auth/oauth2/TrustBoundaryInfo.java:174 | As written, a null metadata map throws NullPointerException. Corrected, it yields the augmented empty map. |
| `TrustBoundarySpec.EmptyTokenIsSent` | oauth2_http/java/com/google/auth/oauth2/TrustBoundaryInfo.java:118-131 | Only a null token value is rejected. An empty one is sent as `Authorization: Bearer `. |
| `TrustBoundarySpec.ServerErrorThrowsRetryable` | oauth2_http/java/com/google/auth/oauth2/TrustBoundaryInfo.java:133-160 | A 500 reply makes `execute()` throw; the lookup throws `GoogleAuthException(retryable, HttpResponseException(500))` and caches nothing. |
| `TrustBoundarySpec.NoContentReturnsNull` | oauth2_http/java/com/google/auth/oauth2/TrustBoundaryInfo.java:134-162 | A 204 reply is a success that is not decoded: the lookup returns null without throwing and caches nothing. |
| `TrustBoundary.TrustBoundaryInfo.constructor` | oauth2_http/java/com/google/auth/oauth2/TrustBoundaryInfo.java:93-98 | The URL is fixed at construction. The slot and the request log start empty, and both getters return null. |
| `TrustBoundary.TrustBoundaryInfo.LookupTrustBoundary` | oauth2_http/java/com/google/auth/oauth2/TrustBoundaryInfo.java:107-163 | The new slot, the result and the appended request are those of `Lookup` on the old slot. The slot invariant is kept. After a lookup that returned a response, the getters return that response's fields. |
| `TrustBoundary.TrustBoundaryInfo.GetAllowedLocations` | oauth2_http/java/com/google/auth/oauth2/TrustBoundaryInfo.java:188-191 | Null when the slot is empty. Otherwise the cached list itself, in the order received, which may be null. |
| `TrustBoundary.TrustBoundaryInfo.GetEncodedAllowedLocations` | oauth2_http/java/com/google/auth/oauth2/TrustBoundaryInfo.java:199-202 | Null when the slot is empty. Otherwise the cached encoded form. |
| `TrustBoundary.TrustBoundaryInfo.AddTrustBoundaryToRequestMetadata` | oauth2_http/java/com/google/auth/oauth2/TrustBoundaryInfo.java:171-180 | The returned value and the caller's map afterwards are those of `MetadataAsWritten`. The slot is not touched. |
| `TrustBoundary.TrustBoundaryInfo.AddTrustBoundaryToRequestMetadataCorrected` | oauth2_http/java/com/google/auth/oauth2/TrustBoundaryInfo.java:165-180 | The returned value and the caller's map afterwards are those of `MetadataCorrected`. |
| `TrustBoundary.TrustBoundaryInfo.ClearCache` | oauth2_http/java/com/google/auth/oauth2/TrustBoundaryInfo.java:207-209 | The slot is empty, both getters return null, and nothing is sent. |
| `TrustBoundary.TrustBoundaryInfo.RefreshTrustBoundary` | oauth2_http/java/com/google/auth/oauth2/TrustBoundaryInfo.java:219-225 | The new slot, the exception passed on and the appended request are those of `Refresh`. An exception is passed on exactly when there is a URL and a token value and the reply is a transport failure, a status outside 200-299 or a malformed 200 body; it is a retryable `GoogleAuthException` and the slot is then empty. Unless the fresh lookup stored a response, both getters return null. |
| `TrustBoundary.GettersRevealCache` | oauth2_http/java/com/google/auth/oauth2/TrustBoundaryInfo.java:188-202 | Under the slot invariant, the slot is filled exactly when `getAllowedLocations` is non-empty or `getEncodedAllowedLocations` is non-null. |
| `Lifecycle.RunKeepsCacheComplete` | oauth2_http/java/com/google/auth/oauth2/TrustBoundaryInfo.java:140-147 | For any sequence of lookups, clears and refreshes, with any tokens and replies: the slot never holds a response that fails the rejection rule. |
| `Lifecycle.RunSendsAtMostOneRequestPerCall` | oauth2_http/java/com/google/auth/oauth2/TrustBoundaryInfo.java:123-134 | Each call sends at most one request and records at most one outcome, and earlier records are kept. A run of lookups records one outcome per call. |
| `Lifecycle.RunWithoutUrlSendsNothing` | oauth2_http/java/com/google/auth/oauth2/TrustBoundaryInfo.java:108-110 | With no URL: nothing is ever sent, and every lookup and refresh yields null. A run of lookups leaves even a filled slot as it was. |
| `Lifecycle.CachedLookupsAreIdempotent` | oauth2_http/java/com/google/auth/oauth2/TrustBoundaryInfo.java:112-114 | Once the slot is filled and a URL is set, any number of lookups return that same response, send nothing and change nothing. |
| `Lifecycle.SentRequestsAreBearerGets` | oauth2_http/java/com/google/auth/oauth2/TrustBoundaryInfo.java:123-131 | Every request a run sends is a GET of the lookup URL whose authorization starts with `Bearer `. |
| `Lifecycle.CachedResponseWasDelivered` | oauth2_http/java/com/google/auth/oauth2/TrustBoundaryInfo.java:135-147 | A response that a run leaves in the slot, and that was not there before, was delivered by one of the calls as a 200 reply decoding to it. |
| `Lifecycle.ClearThenFreshLookup` | oauth2_http/java/com/google/auth/oauth2/TrustBoundaryInfo.java:133-160 | A malformed 200 reply leaves the slot as it was; with an empty slot and a token value it throws `GoogleAuthException(retryable, GoogleAuthException(retryable, IOException))`. After a clear, a good 200 reply is stored and returned. |
| `TrustBoundary.ClearCacheRemovesData` | oauth2_http/javatests/com/google/auth/oauth2/TrustBoundaryInfoTest.java:302-341 | On a fresh object, a lookup with a token and a complete 200 reply makes both getters show the response's fields; after `clearCache` both return null. |

## The tests and the code

The model follows `TrustBoundaryInfo.java`. Three points where the test file and the code have to be read together:

- **Call shape.** The tests build the object from a transport factory alone and pass credentials, token and URL to each lookup (`TrustBoundaryInfoTest.java:73, 88, 121`). The code takes the credentials at construction, reads the URL from them once (`TrustBoundaryInfo.java:93-98`), and looks up with no arguments (line 107). The model keeps the code's shape. The token and the transport's answer become per-call parameters because they are external inputs.
- **Non-200 status.** The test expects an exception for a 500 reply (`TrustBoundaryInfoTest.java:193-221`), and the code agrees. `request.execute()` at line 134 uses the HTTP client's default of throwing `HttpResponseException` for any status outside 200-299, and the outer `catch` at lines 157-159 wraps it in a retryable `GoogleAuthException` (`ServerErrorThrowsRetryable`). The logging branch at lines 153-156 that leads to `return null` is reached only for 201-299 (`NoContentReturnsNull`).
- **Malformed body.** The test named `invalidJson_returnsNull` in fact expects an exception (`TrustBoundaryInfoTest.java:184-189`). This agrees with the code.

## Left out

- `TrustBoundaryProvider.java` is not modelled. It is a three-method interface with no behaviour, and traits are not used here.
- HTTP plumbing is not modelled: the transport factory, request factory, `GenericUrl` and `execute()`. The transport is represented by its answer (`HttpReply`) and the request by an `HttpRequest` record in a ghost log. Of `execute()` the model keeps only its default of throwing `HttpResponseException` for a status outside 200-299. Redirects that the client follows are folded into the final `Reply`, and the exception's headers, message and body are not modelled.
- An IOException from building the request (lines 123-124) is not modelled. It would leave the method unwrapped, because it is raised outside the `try`.
- JSON decoding is not modelled. `parseAs` is represented by its outcome (`Parsed` or `Malformed`). Runtime exceptions other than IOException, and a null result from `parseAs`, are not modelled.
- `GoogleAuthException` is not part of this model. It is taken to extend `IOException`, as it does in the library. So the exception thrown for a malformed body (line 151) is caught by the outer `catch` and wrapped again (line 159). The model records this double wrap; either way the exception is retryable.
- Concurrency is not modelled: the `AtomicReference` slot, cross-thread visibility, and the two reads of the slot at lines 112-113. The model is sequential and reads the slot once.
- The token check rejects only a null token value (line 118). An empty token value is sent as it is (`EmptyTokenIsSent`); no test covers it.
- Logging through `LOGGER.warning` is not modelled. It has no effect on state.
- Token acquisition by the credential is not modelled. The token is a parameter.
- The read-only wrapper `Collections.unmodifiableMap` at line 179 is not modelled, because a Dafny map value is already immutable. The Java list returned at line 190 is a shared reference; the model returns it as a value.
- AddTrustBoundaryToRequestMetadata: the `put` at line 176 throws `UnsupportedOperationException` when the caller's map is unmodifiable and an encoded form is cached. The model does not capture this, because `RequestMetadata` is always mutable; callers are taken to pass a mutable map.
- `Lifecycle` sequences leave out `addTrustBoundaryToRequestMetadata` and the getters, because neither changes the slot.

## Findings

| source | as written | input that shows it | evidently intended | confidence | as-written member | corrected member |
|---|---|---|---|---|---|---|
| oauth2_http/java/com/google/auth/oauth2/TrustBoundaryInfo.java:174-179 | The copy is taken before the header is put. The header then goes into the caller's map, so the returned map lacks it. | `encodedLocations = "0xA30"` cached, empty metadata map | The returned map carries the header, as the Javadoc's `@return` says (line 169). The test at `TrustBoundaryInfoTest.java:285-289` checks only the caller's map. | not executed | `TrustBoundarySpec.ReturnedMetadataLacksHeader` | `TrustBoundarySpec.MetadataCorrected` |
| oauth2_http/java/com/google/auth/oauth2/TrustBoundaryInfo.java:174 | `new HashMap<>(requestMetadata)` throws NullPointerException for a null map. | metadata `null`, any cache | Does not throw, as `TrustBoundaryInfoTest.java:292-299` requires. A null map counts as empty. | not executed | `TrustBoundarySpec.NullMetadataThrows` | `TrustBoundarySpec.MetadataCorrected` |
