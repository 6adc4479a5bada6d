/**
 * The caching OCSP client over NvCache: it may answer from memory, but every answer it
 * gives is one the wrapped client gave for the same CertID, and is still current.
 */
module OcspCache {
  import opened Common
  import opened RawProof
  import opened NvCache
  import opened CacheRuns

  const NV_OCSP_RESPONSE_SIZE_BYTES: uint64 := 20

  datatype Request = Request(subject: Cert, issuer: Cert, intermediates: seq<Cert>)

  /** What surrounds the client: cache options, the clock, CertID encoding, and the wrapped client by call number. */
  datatype World = World(
    options: Options, clock: nat -> int, keyOf: (Cert, Cert) -> Option<Key>,
    inner: (nat, Request) -> Result<OcspResponse>)

  /** The client's state: its cache and how often it has asked the wrapped client. */
  datatype ClientState = ClientState(cache: State<OcspResponse>, calls: nat)

  /** An answer of the wrapped client that was stored: for which key, in which call, and when. */
  datatype Fetch = Fetch(key: Key, call: nat, request: Request, response: OcspResponse, storedAt: int)

  datatype Served = Served(state: ClientState, answer: Result<OcspResponse>, fetch: Option<Fetch>)

  function EntrySize(k: Key): uint64 {
    (NV_OCSP_RESPONSE_SIZE_BYTES + |k|) % TWO64
  }

  /** A cached answer that can be used: alive in the cache, and nextUpdate not yet passed. */
  predicate Usable(c: State<OcspResponse>, clock: nat -> int, k: Key) {
    Live(c, clock, k) && c.entries[k].value.nextUpdate >= clock(c.ticks + 1)
  }

  ghost function Serve(w: World, s: ClientState, r: Request): (v: Served)
    requires Consistent(s.cache)
    ensures Consistent(v.state.cache)
  {
    match w.keyOf(r.subject, r.issuer)
    case None => Served(s, Err(InternalError), None)
    case Some(k) =>
      var looked := Get(s.cache, w.clock, k);
      if Usable(s.cache, w.clock, k) then
        Served(s.(cache := looked.(ticks := looked.ticks + 1)), Ok(s.cache.entries[k].value), None)
      else
        var c := if Live(s.cache, w.clock, k) then looked.(ticks := looked.ticks + 1) else looked;
        Refreshed(w, c, s.calls, k, r)
  }

  /** The wrapped client is asked, and its answer stored. */
  ghost function Refreshed(w: World, c: State<OcspResponse>, calls: nat, k: Key, r: Request): (v: Served)
    requires Consistent(c)
    ensures Consistent(v.state.cache)
  {
    var answer := w.inner(calls, r);
    if answer.Err? then Served(ClientState(c, calls + 1), answer, None)
    else
      var stored := Put(c, w.options, w.clock, k, answer.value, EntrySize(k));
      if EntrySize(k) > w.options.maxSizeBytes then Served(ClientState(stored, calls + 1), Err(BadArgument), None)
      else
        PutReadsClock(c, w.options, w.clock, k, answer.value, EntrySize(k));
        Served(ClientState(stored, calls + 1), answer, Some(Fetch(k, calls, r, answer.value, w.clock(stored.ticks - 1))))
  }

  // ---------------------------------------------------------------------------
  // Runs
  // ---------------------------------------------------------------------------

  datatype History = History(state: ClientState, fetches: seq<Fetch>)

  ghost function After(w: World, requests: seq<Request>): (h: History)
    ensures Consistent(h.state.cache)
  {
    if requests == [] then History(ClientState(Empty(0), 0), [])
    else
      var before := After(w, requests[..|requests| - 1]);
      var v := Serve(w, before.state, requests[|requests| - 1]);
      History(v.state, before.fetches + (if v.fetch.Some? then [v.fetch.value] else []))
  }

  /** The wrapped client did give this answer, to a request for this key, in that call. */
  ghost predicate Genuine(w: World, f: Fetch, calls: nat) {
    f.call < calls && w.inner(f.call, f.request) == Ok(f.response) && w.keyOf(f.request.subject, f.request.issuer) == Some(f.key)
  }

  ghost predicate Explained(w: World, c: State<OcspResponse>, fetches: seq<Fetch>, k: Key) {
    exists i :: 0 <= i < |fetches| && fetches[i].key == k && k in c.entries
      && c.entries[k].value == fetches[i].response && c.entries[k].expiry == fetches[i].storedAt + w.options.ttlSeconds
  }

  /** Every entry of the cache goes back to an answer of the wrapped client. */
  ghost predicate Sound(w: World, h: History) {
    && (forall i :: 0 <= i < |h.fetches| ==> Genuine(w, h.fetches[i], h.state.calls))
    && (forall k :: k in h.state.cache.entries ==> Explained(w, h.state.cache, h.fetches, k))
  }

  lemma ExplainedCarries(w: World, c: State<OcspResponse>, c': State<OcspResponse>, fetches: seq<Fetch>, more: seq<Fetch>, k: Key)
    requires Explained(w, c, fetches, k) && k in c'.entries && c'.entries[k].value == c.entries[k].value && c'.entries[k].expiry == c.entries[k].expiry
    ensures Explained(w, c', fetches + more, k)
  {
    var i :| 0 <= i < |fetches| && fetches[i].key == k && k in c.entries
      && c.entries[k].value == fetches[i].response && c.entries[k].expiry == fetches[i].storedAt + w.options.ttlSeconds;
    assert (fetches + more)[i] == fetches[i];
  }

  /** Entries are the old ones, but for the one that was fetched. */
  ghost predicate Accounted(w: World, before: State<OcspResponse>, v: Served) {
    && (v.fetch.None? ==>
          forall q :: q in v.state.cache.entries ==> q in before.entries && v.state.cache.entries[q] == before.entries[q])
    && (v.fetch.Some? ==>
          && var f := v.fetch.value;
          && Genuine(w, f, v.state.calls) && v.answer == Ok(f.response)
          && f.key in v.state.cache.entries && v.state.cache.entries[f.key].value == f.response
          && v.state.cache.entries[f.key].expiry == f.storedAt + w.options.ttlSeconds
          && forall q :: q in v.state.cache.entries && q != f.key ==> q in before.entries && v.state.cache.entries[q] == before.entries[q])
  }

  lemma RefreshedEntries(w: World, c: State<OcspResponse>, calls: nat, k: Key, r: Request)
    requires Consistent(c) && w.keyOf(r.subject, r.issuer) == Some(k)
    ensures Accounted(w, c, Refreshed(w, c, calls, k, r)) && Refreshed(w, c, calls, k, r).state.calls == calls + 1
  {
    hide Consistent, Put;
    if w.inner(calls, r).Ok? {
      var answer := w.inner(calls, r).value;
      PutKeepsOthers(c, w.options, w.clock, k, answer, EntrySize(k));
      if EntrySize(k) <= w.options.maxSizeBytes {
        PutReadsClock(c, w.options, w.clock, k, answer, EntrySize(k));
      }
    }
  }

  lemma ServeEntries(w: World, s: ClientState, r: Request)
    requires Consistent(s.cache)
    ensures Accounted(w, s.cache, Serve(w, s, r)) && Serve(w, s, r).state.calls >= s.calls
  {
    hide Consistent, Put, Refreshed;
    if w.keyOf(r.subject, r.issuer).Some? {
      var k := w.keyOf(r.subject, r.issuer).value;
      var looked := Get(s.cache, w.clock, k);
      var c := if Live(s.cache, w.clock, k) then looked.(ticks := looked.ticks + 1) else looked;
      assert c.entries == s.cache.entries;
      ReadConsistent(looked);
      RefreshedEntries(w, c, s.calls, k, r);
    }
  }

  lemma ServeSound(w: World, h: History, r: Request)
    requires Consistent(h.state.cache) && Sound(w, h)
    ensures var v := Serve(w, h.state, r);
            Sound(w, History(v.state, h.fetches + (if v.fetch.Some? then [v.fetch.value] else [])))
  {
    hide Consistent, Serve, Explained;
    var v := Serve(w, h.state, r);
    ServeEntries(w, h.state, r);
    var more := if v.fetch.Some? then [v.fetch.value] else [];
    forall k | k in v.state.cache.entries ensures Explained(w, v.state.cache, h.fetches + more, k) {
      if v.fetch.Some? && v.fetch.value.key == k {
        FreshlyExplained(w, v.state.cache, h.fetches, v.fetch.value);
      } else {
        ExplainedCarries(w, h.state.cache, v.state.cache, h.fetches, more, k);
      }
    }
  }

  lemma FreshlyExplained(w: World, c: State<OcspResponse>, fetches: seq<Fetch>, f: Fetch)
    requires f.key in c.entries && c.entries[f.key].value == f.response && c.entries[f.key].expiry == f.storedAt + w.options.ttlSeconds
    ensures Explained(w, c, fetches + [f], f.key)
  {
    assert (fetches + [f])[|fetches|] == f;
  }

  lemma {:induction false} RunSound(w: World, requests: seq<Request>)
    ensures Sound(w, After(w, requests))
  {
    hide Serve, Consistent, Explained;
    if requests != [] {
      var front := requests[..|requests| - 1];
      RunSound(w, front);
      ServeSound(w, After(w, front), requests[|requests| - 1]);
    }
  }

  /**
   * Every Ok answer, at any point of any run, is an answer of the wrapped client for the same
   * CertID key: this call's own, or an earlier one that is within its time to live and whose
   * nextUpdate has not passed at the times this call reads.
   */
  lemma AnswersAreGenuine(w: World, requests: seq<Request>, r: Request) returns (f: Fetch)
    requires Serve(w, After(w, requests).state, r).answer.Ok?
    ensures var h := After(w, requests);
            var v := Serve(w, h.state, r);
            && w.keyOf(r.subject, r.issuer) == Some(f.key)
            && v.answer == Ok(f.response)
            && Genuine(w, f, v.state.calls)
            && ((f.call == h.state.calls && f.request == r)
                || (f in h.fetches
                    && w.clock(h.state.cache.ticks) < f.storedAt + w.options.ttlSeconds
                    && w.clock(h.state.cache.ticks + 1) <= f.response.nextUpdate))
  {
    hide Consistent, Put, After, Sound, Genuine;
    var h := After(w, requests);
    RunSound(w, requests);
    if Serve(w, h.state, r).fetch.Some? {
      hide Serve;
      f := Serve(w, h.state, r).fetch.value;
      FetchedAnswer(w, h.state, r);
    } else {
      f := CachedAnswer(w, h, w.keyOf(r.subject, r.issuer).value);
      GenuineStays(w, f, h.state.calls, Serve(w, h.state, r).state.calls);
    }
  }

  lemma GenuineStays(w: World, f: Fetch, calls: nat, calls': nat)
    requires Genuine(w, f, calls) && calls <= calls'
    ensures Genuine(w, f, calls')
  {
  }

  lemma FetchedAnswer(w: World, s: ClientState, r: Request)
    requires Consistent(s.cache) && Serve(w, s, r).fetch.Some?
    ensures var v := Serve(w, s, r);
            var f := v.fetch.value;
            && w.keyOf(r.subject, r.issuer) == Some(f.key) && f.call == s.calls && f.request == r
            && v.answer == Ok(f.response) && Genuine(w, f, v.state.calls)
  {
    hide Consistent, Put, Get;
  }

  lemma CachedAnswer(w: World, h: History, k: Key) returns (f: Fetch)
    requires Sound(w, h) && Usable(h.state.cache, w.clock, k)
    ensures f in h.fetches && f.key == k && f.response == h.state.cache.entries[k].value && Genuine(w, f, h.state.calls)
    ensures w.clock(h.state.cache.ticks) < f.storedAt + w.options.ttlSeconds
    ensures w.clock(h.state.cache.ticks + 1) <= f.response.nextUpdate
  {
    assert Explained(w, h.state.cache, h.fetches, k);
    var i :| 0 <= i < |h.fetches| && h.fetches[i].key == k
      && h.state.cache.entries[k].value == h.fetches[i].response
      && h.state.cache.entries[k].expiry == h.fetches[i].storedAt + w.options.ttlSeconds;
    f := h.fetches[i];
  }

  /**
   * When the wrapped client is asked: once for every request that has a key, unless the cache
   * holds an answer for it inside its time to live whose nextUpdate has not passed, and then
   * that answer is given.
   */
  lemma AskedOnlyWhenNeeded(w: World, s: ClientState, r: Request, k: Key)
    requires Consistent(s.cache) && w.keyOf(r.subject, r.issuer) == Some(k)
    ensures var v := Serve(w, s, r);
            var held := && k in s.cache.entries && s.cache.entries[k].expiry > w.clock(s.cache.ticks)
                        && s.cache.entries[k].value.nextUpdate >= w.clock(s.cache.ticks + 1);
            && v.state.calls == (if held then s.calls else s.calls + 1)
            && (held ==> v.answer == Ok(s.cache.entries[k].value))
            && (!held && w.inner(s.calls, r).Err? ==> v.answer == w.inner(s.calls, r))
  {
    hide Consistent, Put;
  }

  /** Asking again for what has just been fetched, in time, does not ask the wrapped client. */
  lemma SecondRequestServed(w: World, s: ClientState, r: Request, r': Request, k: Key)
    requires Consistent(s.cache) && w.keyOf(r.subject, r.issuer) == Some(k) && w.keyOf(r'.subject, r'.issuer) == Some(k)
    requires Serve(w, s, r).fetch.Some?
    ensures var v := Serve(w, s, r);
            var t := v.state.cache.ticks;
            && t > 0 && v.answer.Ok?
            && (w.clock(t) < w.clock(t - 1) + w.options.ttlSeconds && w.clock(t + 1) <= v.answer.value.nextUpdate ==>
                  Serve(w, v.state, r').answer == v.answer && Serve(w, v.state, r').state.calls == v.state.calls)
  {
    var v := Serve(w, s, r);
    FetchedLast(w, s, r, k);
    hide Serve, Consistent;
    AskedOnlyWhenNeeded(w, v.state, r', k);
  }

  lemma FetchedLast(w: World, s: ClientState, r: Request, k: Key)
    requires Consistent(s.cache) && w.keyOf(r.subject, r.issuer) == Some(k) && Serve(w, s, r).fetch.Some?
    ensures var v := Serve(w, s, r);
            var c := v.state.cache;
            && v.answer.Ok? && c.ticks > 0 && k in c.entries && c.entries[k].value == v.answer.value
            && c.entries[k].expiry == w.clock(c.ticks - 1) + w.options.ttlSeconds
  {
    hide Consistent, Put;
    var looked := Get(s.cache, w.clock, k);
    var c := if Live(s.cache, w.clock, k) then looked.(ticks := looked.ticks + 1) else looked;
    ReadConsistent(looked);
    PutReadsClock(c, w.options, w.clock, k, w.inner(s.calls, r).value, EntrySize(k));
  }

  // ---------------------------------------------------------------------------
  // The client itself
  // ---------------------------------------------------------------------------

  class CachingClient {
    const cache: Cache<OcspResponse>
    var calls: nat
    const keyOf: (Cert, Cert) -> Option<Key>
    const inner: (nat, Request) -> Result<OcspResponse>

    constructor (cache: Cache<OcspResponse>, keyOf: (Cert, Cert) -> Option<Key>, inner: (nat, Request) -> Result<OcspResponse>)
      ensures this.cache == cache && this.keyOf == keyOf && this.inner == inner && calls == 0
    {
      this.cache, this.keyOf, this.inner, calls := cache, keyOf, inner, 0;
    }

    ghost function TheWorld(): World {
      World(cache.options, cache.clock, keyOf, inner)
    }

    ghost function View(): ClientState
      reads this, cache
    {
      ClientState(cache.View(), calls)
    }

    /** `NvHttpOcspCacheClient::get_ocsp_response`. */
    method GetOcspResponse(r: Request) returns (answer: Result<OcspResponse>)
      requires cache.Valid()
      modifies this, cache
      ensures cache.Valid()
      ensures var v := Serve(TheWorld(), old(View()), r); View() == v.state && answer == v.answer
    {
      hide Consistent, Put, Get, Refreshed;
      var maybeKey := keyOf(r.subject, r.issuer);
      if maybeKey.None? {
        return Err(InternalError);
      }
      var key := maybeKey.value;
      LookupTicks(cache.View(), cache.clock, key);
      var found := cache.Get(key);
      var refresh := found.None?;
      if found.Some? {
        ReadConsistent(cache.View());
        var now := cache.Time();
        refresh := found.value.nextUpdate < now;
      }
      if refresh {
        answer := Refresh(key, r);
        return;
      }
      answer := Ok(found.value);
    }

    /** The part of `get_ocsp_response` that asks the wrapped client. */
    method Refresh(key: Key, r: Request) returns (answer: Result<OcspResponse>)
      requires cache.Valid()
      modifies this, cache
      ensures cache.Valid()
      ensures var v := Refreshed(TheWorld(), old(cache.View()), old(calls), key, r); View() == v.state && answer == v.answer
    {
      hide Consistent, Put;
      answer := inner(calls, r);
      calls := calls + 1;
      if answer.Err? {
        return;
      }
      var ok := cache.Put(key, answer.value, EntrySize(key));
      if !ok {
        answer := Err(BadArgument);
      }
    }
  }

  lemma LookupTicks<V>(s: State<V>, clock: nat -> int, k: Key)
    requires Consistent(s)
    ensures Live(s, clock, k) ==> Get(s, clock, k).ticks == s.ticks + 1
  {
  }
}
