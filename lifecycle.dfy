/** Sequences of calls on one trust-boundary object. A call sequence is applied to the cache
    slot one call at a time with the transitions of `TrustBoundarySpec`; the lemmas state what
    holds however the calls are interleaved and whatever the transport answers.
 */
module Lifecycle {
  import opened TrustBoundarySpec

  /** One operation that touches the cache slot, with the token and the transport's answer
      it would see. */
  datatype Call =
    | LookupCall(accessToken: Option<AccessToken>, reply: HttpReply)
    | ClearCall
    | RefreshCall(accessToken: Option<AccessToken>, reply: HttpReply)

  /** The slot, every request sent so far and the outcome of every lookup or refresh. */
  datatype History = History(
    cache: Option<TrustBoundaryResponse>,
    sent: seq<HttpRequest>,
    results: seq<LookupResult>)

  function SentList(sent: Option<HttpRequest>): seq<HttpRequest> {
    if sent.Some? then [sent.value] else []
  }

  function Record(h: History, s: LookupStep): History {
    History(s.cache, h.sent + SentList(s.sent), h.results + [s.result])
  }

  function Apply(lookupUrl: Option<string>, h: History, call: Call): History {
    match call
    case LookupCall(token, reply) => Record(h, Lookup(lookupUrl, h.cache, token, reply))
    case ClearCall => History(None, h.sent, h.results)
    case RefreshCall(token, reply) => Record(h, Refresh(lookupUrl, token, reply))
  }

  function Run(lookupUrl: Option<string>, h: History, calls: seq<Call>): History
    decreases |calls|
  {
    if calls == [] then h else Run(lookupUrl, Apply(lookupUrl, h, calls[0]), calls[1..])
  }

  predicate OnlyLookups(calls: seq<Call>) {
    forall i :: 0 <= i < |calls| ==> calls[i].LookupCall?
  }

  /** The call hands over a 200 reply that decodes to `r`. */
  predicate Delivers(call: Call, r: TrustBoundaryResponse) {
    !call.ClearCall? && call.reply == Reply(StatusOk, Parsed(r))
  }

  predicate IsBearerGet(request: HttpRequest, url: string) {
    && request.httpMethod == "GET"
    && request.url == url
    && |request.authorization| >= 7
    && request.authorization[..7] == "Bearer "
  }

  /** Whatever is called, the slot never holds a response that fails the rejection rule. */
  lemma {:induction false} RunKeepsCacheComplete(lookupUrl: Option<string>, h: History, calls: seq<Call>)
    requires CacheHoldsComplete(h.cache)
    ensures CacheHoldsComplete(Run(lookupUrl, h, calls).cache)
    decreases |calls|
  {
    if calls != [] {
      RunKeepsCacheComplete(lookupUrl, Apply(lookupUrl, h, calls[0]), calls[1..]);
    }
  }

  /** Every call adds exactly one outcome to the record when it is a lookup or a refresh, and at
      most one request. */
  lemma {:induction false} RunSendsAtMostOneRequestPerCall(lookupUrl: Option<string>, h: History, calls: seq<Call>)
    ensures |h.sent| <= |Run(lookupUrl, h, calls).sent| <= |h.sent| + |calls|
    ensures |h.results| <= |Run(lookupUrl, h, calls).results| <= |h.results| + |calls|
    ensures Run(lookupUrl, h, calls).sent[..|h.sent|] == h.sent
    ensures Run(lookupUrl, h, calls).results[..|h.results|] == h.results
    ensures OnlyLookups(calls) ==> |Run(lookupUrl, h, calls).results| == |h.results| + |calls|
    decreases |calls|
  {
    if calls != [] {
      var h' := Apply(lookupUrl, h, calls[0]);
      RunSendsAtMostOneRequestPerCall(lookupUrl, h', calls[1..]);
      var r := Run(lookupUrl, h', calls[1..]);
      assert r.sent[..|h.sent|] == r.sent[..|h'.sent|][..|h.sent|];
      assert r.results[..|h.results|] == r.results[..|h'.results|][..|h.results|];
    }
  }

  /** Without a lookup URL nothing is ever sent, every lookup and refresh yields null, and a run
      of lookups leaves the slot as it was, even a populated one. */
  lemma {:induction false} RunWithoutUrlSendsNothing(h: History, calls: seq<Call>)
    ensures var r := Run(None, h, calls);
            && r.sent == h.sent
            && (forall i :: |h.results| <= i < |r.results| ==> r.results[i] == Returned(None))
            && (OnlyLookups(calls) ==> r.cache == h.cache)
    decreases |calls|
  {
    if calls != [] {
      var h' := Apply(None, h, calls[0]);
      RunWithoutUrlSendsNothing(h', calls[1..]);
      RunSendsAtMostOneRequestPerCall(None, h', calls[1..]);
      var r := Run(None, h', calls[1..]);
      forall i | |h.results| <= i < |h'.results| ensures r.results[i] == Returned(None) {
        assert r.results[i] == r.results[..|h'.results|][i];
      }
      assert OnlyLookups(calls) ==> OnlyLookups(calls[1..]) by {
        if OnlyLookups(calls) {
          forall i | 0 <= i < |calls[1..]| ensures calls[1..][i].LookupCall? {
            assert calls[1..][i] == calls[i + 1];
          }
        }
      }
      assert OnlyLookups(calls) ==> calls[0].LookupCall?;
    }
  }

  /** Once the slot is populated, repeated lookups return that same response, send nothing and
      change nothing, until a clear or a refresh. */
  lemma {:induction false} CachedLookupsAreIdempotent(lookupUrl: Option<string>, h: History, calls: seq<Call>)
    requires lookupUrl.Some? && h.cache.Some?
    requires OnlyLookups(calls)
    ensures var r := Run(lookupUrl, h, calls);
            && r.cache == h.cache
            && r.sent == h.sent
            && |r.results| == |h.results| + |calls|
            && r.results[..|h.results|] == h.results
            && (forall i :: |h.results| <= i < |r.results| ==> r.results[i] == Returned(h.cache))
    decreases |calls|
  {
    if calls != [] {
      assert calls[0].LookupCall?;
      var h' := Apply(lookupUrl, h, calls[0]);
      assert h'.cache == h.cache && h'.sent == h.sent && h'.results == h.results + [Returned(h.cache)];
      assert OnlyLookups(calls[1..]) by {
        forall i | 0 <= i < |calls[1..]| ensures calls[1..][i].LookupCall? {
          assert calls[1..][i] == calls[i + 1];
        }
      }
      CachedLookupsAreIdempotent(lookupUrl, h', calls[1..]);
      var r := Run(lookupUrl, h', calls[1..]);
      assert r.results[..|h.results|] == r.results[..|h'.results|][..|h.results|];
      assert r.results[|h.results|] == r.results[..|h'.results|][|h.results|];
    }
  }

  /** Every request that `after` records beyond those of `before` is a GET of `url` with a
      bearer credential. */
  predicate SentOnlyBearerGets(url: string, before: History, after: History) {
    forall i :: |before.sent| <= i < |after.sent| ==> IsBearerGet(after.sent[i], url)
  }

  /** One call sends at most one request, a GET of the lookup URL with a bearer credential. */
  lemma ApplySendsBearerGet(url: string, h: History, call: Call)
    ensures |h.sent| <= |Apply(Some(url), h, call).sent| && Apply(Some(url), h, call).sent[..|h.sent|] == h.sent
    ensures SentOnlyBearerGets(url, h, Apply(Some(url), h, call))
  {
    if !call.ClearCall? {
      var s := if call.LookupCall? then Lookup(Some(url), h.cache, call.accessToken, call.reply)
               else Refresh(Some(url), call.accessToken, call.reply);
      assert Apply(Some(url), h, call) == Record(h, s);
      if s.sent.Some? {
        var token := call.accessToken.value.tokenValue.value;
        assert ("Bearer " + token)[..7] == "Bearer ";
        assert IsBearerGet(s.sent.value, url);
      }
    }
  }

  lemma SentOnlyBearerGetsTrans(url: string, a: History, b: History, c: History)
    requires |a.sent| <= |b.sent| <= |c.sent| && c.sent[..|b.sent|] == b.sent
    requires SentOnlyBearerGets(url, a, b) && SentOnlyBearerGets(url, b, c)
    ensures SentOnlyBearerGets(url, a, c)
  {
    forall i | |a.sent| <= i < |c.sent| ensures IsBearerGet(c.sent[i], url) {
      if i < |b.sent| {
        assert c.sent[i] == c.sent[..|b.sent|][i] == b.sent[i];
      }
    }
  }

  /** Every request ever sent to a lookup URL is a GET of that URL with a bearer credential.
      (Without a URL nothing is sent at all: `RunWithoutUrlSendsNothing`.) */
  lemma {:induction false} SentRequestsAreBearerGets(url: string, h: History, calls: seq<Call>)
    ensures SentOnlyBearerGets(url, h, Run(Some(url), h, calls))
    decreases |calls|
  {
    if calls != [] {
      var h' := Apply(Some(url), h, calls[0]);
      ApplySendsBearerGet(url, h, calls[0]);
      SentRequestsAreBearerGets(url, h', calls[1..]);
      RunSendsAtMostOneRequestPerCall(Some(url), h', calls[1..]);
      SentOnlyBearerGetsTrans(url, h, h', Run(Some(url), h', calls[1..]));
    }
  }

  /** A response that the run leaves in the slot, and that was not there before, was delivered
      by one of the calls as a 200 reply. */
  lemma {:induction false} CachedResponseWasDelivered(lookupUrl: Option<string>, h: History, calls: seq<Call>)
    requires Run(lookupUrl, h, calls).cache.Some?
    requires Run(lookupUrl, h, calls).cache != h.cache
    ensures exists i :: 0 <= i < |calls| && Delivers(calls[i], Run(lookupUrl, h, calls).cache.value)
    decreases |calls|
  {
    var v := Run(lookupUrl, h, calls).cache.value;
    assert calls != [];
    var h' := Apply(lookupUrl, h, calls[0]);
    if Run(lookupUrl, h', calls[1..]).cache != h'.cache {
      CachedResponseWasDelivered(lookupUrl, h', calls[1..]);
      var j :| 0 <= j < |calls[1..]| && Delivers(calls[1..][j], v);
      assert calls[1..][j] == calls[j + 1];
    } else {
      assert Delivers(calls[0], v);
    }
  }

  /** A malformed reply leaves the slot as it was; when the slot was empty and a token value was
      sent, the call throws the doubly wrapped retryable exception. After a clear, a good reply
      is stored and returned. */
  lemma ClearThenFreshLookup(url: string, h: History, token: string, bad: AccessToken, r: TrustBoundaryResponse)
    requires !MissingRequiredFields(r)
    ensures var calls := [LookupCall(Some(bad), Reply(StatusOk, Malformed)), ClearCall,
                          LookupCall(Some(AccessToken(Some(token))), Reply(StatusOk, Parsed(r)))];
            var first := Run(Some(url), h, calls[..1]);
            var run := Run(Some(url), h, calls);
            && first.cache == h.cache
            && (h.cache.None? && bad.tokenValue.Some? ==>
                  first.results == h.results + [Threw(GoogleAuthException(true, GoogleAuthException(true, IOException)))])
            && run.cache == Some(r)
            && run.results == h.results + [Lookup(Some(url), h.cache, Some(bad), Reply(StatusOk, Malformed)).result, Returned(Some(r))]
  {
    var calls := [LookupCall(Some(bad), Reply(StatusOk, Malformed)), ClearCall,
                  LookupCall(Some(AccessToken(Some(token))), Reply(StatusOk, Parsed(r)))];
    var h1 := Apply(Some(url), h, calls[0]);
    assert calls[..1][1..] == [];
    assert Run(Some(url), h, calls[..1]) == Run(Some(url), h1, []) == h1;
    var h2 := Apply(Some(url), h1, calls[1..][0]);
    var h3 := Apply(Some(url), h2, calls[1..][1..][0]);
    assert calls[1..][1..][1..] == [];
    assert Run(Some(url), h2, calls[1..][1..]) == Run(Some(url), h3, []) == h3;
    assert Run(Some(url), h, calls) == Run(Some(url), h1, calls[1..]) == Run(Some(url), h2, calls[1..][1..]);
  }
}
