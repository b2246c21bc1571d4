/**
 * The two request handlers of the API: `POST /shorten` creates a record and
 * warms the cache; `GET /{code}` resolves cache-first, falling back to the
 * durable store and backfilling the cache.
 *
 * Each handler is a method over the store and cache objects, proved against a
 * function on values (ShortenSpec, ResolveSpec); the round trip and cache
 * transparency are lemmas about those functions.
 */
module Endpoints {
  import opened Wrappers
  import opened ShortCodes
  import opened Data
  import opened Cache
  import opened Shortening

  datatype ShortenUrlRequest = ShortenUrlRequest(url: string)

  /** The HTTP results. StillRetrying: no response yet, the generator is still looking for a fresh code. */
  datatype Outcome = BadRequest(message: string) | Ok(code: string) | Redirect(url: string) | NotFound | StillRetrying

  /** The durable table and the cache, as values. */
  datatype AppState = AppState(rows: seq<ShortenedUrl>, cache: CacheState)

  datatype Response = Response(outcome: Outcome, after: AppState)

  const InvalidUrlMessage: string := "The specified URL is invalid."

  /**
   * The scheme test applied to the result of `Uri.TryCreate(url,
   * UriKind.Absolute)`: `None` when the url is not an absolute URI, otherwise
   * its (lower-case) scheme.
   */
  predicate AcceptedScheme(scheme: Option<string>): (b: bool)
    ensures b ==> scheme.Some?
    ensures b <==> scheme == Some("http") || scheme == Some("https")
  {
    scheme.Some? && (scheme.value == "http" || scheme.value == "https")
  }

  /** Every cache entry under a code's key holds that code's long URL from the store. */
  ghost predicate Coherent(rows: seq<ShortenedUrl>, entries: map<string, CacheEntry>) {
    forall code :: Key(code) in entries ==>
      FindByCode(rows, code).Some? && FindByCode(rows, code).value.longUrl == entries[Key(code)].value
  }

  /** What a sequence of requests keeps: the unique index, the column length, and a cache that agrees with the store. */
  ghost predicate Consistent(st: AppState, maxCodeLength: nat) {
    UniqueCodes(st.rows) && CodesFit(st.rows, maxCodeLength) && Coherent(st.rows, st.cache.entries)
  }

  /** The `POST /shorten` handler, on values. */
  function ShortenSpec(request: ShortenUrlRequest, uriScheme: string -> Option<string>, settings: ShortLinkSettings,
                       st: AppState, draws: seq<nat>, id: nat, now: int, setFails: bool): (r: Response)
    requires Drawable(settings) && DrawsInRange(draws, |settings.alphabet|)
    ensures !r.outcome.Ok? ==> r.after == st
    ensures r.outcome.Ok? ==> |r.after.rows| == |st.rows| + 1 && r.after.rows[..|st.rows|] == st.rows
    ensures r.outcome.BadRequest? || r.outcome.Ok? || r.outcome.StillRetrying?
  {
    if !AcceptedScheme(uriScheme(request.url)) then Response(BadRequest(InvalidUrlMessage), st)
    else
      match FirstFresh(settings, CodesOf(st.rows), draws)
      case None => Response(StillRetrying, st)
      case Some(code) =>
        var row := ShortenedUrl(id, request.url, code, code, now);
        Response(Ok(code), AppState(st.rows + [row], Set(st.cache, code, request.url, now, setFails)))
  }

  /** The `GET /{code}` handler, on values. The store is never changed. */
  function ResolveSpec(code: string, st: AppState, now: int, getFails: bool, setFails: bool): (r: Response)
    ensures r.after.rows == st.rows
    ensures r.outcome.Redirect? || r.outcome.NotFound?
    ensures r.outcome.NotFound? ==> r.after == st
  {
    match Get(st.cache, code, now, getFails)
    case Some(url) => Response(Redirect(url), st)
    case None =>
      match FindByCode(st.rows, code)
      case None => Response(NotFound, st)
      case Some(row) => Response(Redirect(row.longUrl), st.(cache := Set(st.cache, code, row.longUrl, now, setFails)))
  }

  /** What the durable store alone answers for a code. */
  function StoreOutcome(rows: seq<ShortenedUrl>, code: string): Outcome {
    match FindByCode(rows, code)
    case None => NotFound
    case Some(row) => Redirect(row.longUrl)
  }

  /** A url that is not an absolute http or https URI is rejected, and neither store nor cache changes. */
  lemma ShortenRejectsInvalid(request: ShortenUrlRequest, uriScheme: string -> Option<string>, settings: ShortLinkSettings,
                              st: AppState, draws: seq<nat>, id: nat, now: int, setFails: bool)
    requires Drawable(settings) && DrawsInRange(draws, |settings.alphabet|)
    ensures !AcceptedScheme(uriScheme(request.url)) <==>
      ShortenSpec(request, uriScheme, settings, st, draws, id, now, setFails) == Response(BadRequest(InvalidUrlMessage), st)
  {
  }

  /**
   * A successful create adds exactly one record, whose LongUrl is the
   * request's url and whose Code and ShortUrl are the returned code, a fresh
   * code of the configured length over the alphabet; the cache then holds
   * the url under that code, as far as SetAsync's rules allow.
   */
  lemma ShortenCreatesOneRecord(request: ShortenUrlRequest, uriScheme: string -> Option<string>, settings: ShortLinkSettings,
                                st: AppState, draws: seq<nat>, id: nat, now: int, setFails: bool)
    requires Drawable(settings) && DrawsInRange(draws, |settings.alphabet|)
    ensures var resp := ShortenSpec(request, uriScheme, settings, st, draws, id, now, setFails);
      resp.outcome.Ok? ==>
        && AcceptedScheme(uriScheme(request.url))
        && |resp.outcome.code| == settings.length
        && OverAlphabet(resp.outcome.code, settings.alphabet)
        && resp.outcome.code !in CodesOf(st.rows)
        && resp.after.rows == st.rows + [ShortenedUrl(id, request.url, resp.outcome.code, resp.outcome.code, now)]
        && resp.after.cache == Set(st.cache, resp.outcome.code, request.url, now, setFails)
    ensures var resp := ShortenSpec(request, uriScheme, settings, st, draws, id, now, setFails);
      AcceptedScheme(uriScheme(request.url)) ==> (resp.outcome.Ok? <==> FirstFresh(settings, CodesOf(st.rows), draws).Some?)
  {
  }

  /** Resolve on a cache hit: redirect to the cached url; nothing changes and the store is not consulted. */
  lemma ResolveCacheHit(code: string, st: AppState, now: int, getFails: bool, setFails: bool)
    requires Get(st.cache, code, now, getFails).Some?
    ensures ResolveSpec(code, st, now, getFails, setFails) == Response(Redirect(Get(st.cache, code, now, getFails).value), st)
  {
  }

  /** Resolve on a cache miss for an unknown code: NotFound, and the cache is unchanged. */
  lemma ResolveNotFound(code: string, st: AppState, now: int, getFails: bool, setFails: bool)
    requires Get(st.cache, code, now, getFails).None?
    requires code !in CodesOf(st.rows)
    ensures ResolveSpec(code, st, now, getFails, setFails) == Response(NotFound, st)
  {
  }

  /** Resolve on a cache miss for a stored code: the cache is backfilled with its LongUrl and the client redirected there. */
  lemma ResolveBackfills(code: string, st: AppState, now: int, getFails: bool, setFails: bool, i: nat)
    requires Get(st.cache, code, now, getFails).None?
    requires UniqueCodes(st.rows) && i < |st.rows| && st.rows[i].code == code
    ensures ResolveSpec(code, st, now, getFails, setFails) ==
      Response(Redirect(st.rows[i].longUrl), st.(cache := Set(st.cache, code, st.rows[i].longUrl, now, setFails)))
  {
    FindByCodeIsSingle(st.rows, code, i);
  }

  /** A create keeps the unique index, the column length and the cache's agreement with the store. */
  lemma {:induction false} ShortenPreservesConsistent(request: ShortenUrlRequest, uriScheme: string -> Option<string>,
                                                      settings: ShortLinkSettings, st: AppState, draws: seq<nat>,
                                                      id: nat, now: int, setFails: bool)
    requires Drawable(settings) && DrawsInRange(draws, |settings.alphabet|)
    requires Consistent(st, settings.length)
    ensures Consistent(ShortenSpec(request, uriScheme, settings, st, draws, id, now, setFails).after, settings.length)
  {
    var resp := ShortenSpec(request, uriScheme, settings, st, draws, id, now, setFails);
    if resp.outcome.Ok? {
      var code := resp.outcome.code;
      var row := ShortenedUrl(id, request.url, code, code, now);
      var rows := st.rows + [row];
      assert resp.after.rows == rows;
      forall i, j | 0 <= i < j < |rows| ensures rows[i].code != rows[j].code {
        if j == |st.rows| {
          assert rows[i] == st.rows[i];
          assert st.rows[i].code in CodesOf(st.rows);
        }
      }
      assert CodesFit(rows, settings.length);
      var entries := resp.after.cache.entries;
      forall c | Key(c) in entries
        ensures FindByCode(rows, c).Some? && FindByCode(rows, c).value.longUrl == entries[Key(c)].value
      {
        FindByCodeAppend(st.rows, row, c);
        if c != code {
          SetFrame(st.cache, code, request.url, now, setFails, c, now, false);
        }
      }
    }
  }

  /** A resolve leaves the store as it was and keeps the cache in agreement with it. */
  lemma {:induction false} ResolvePreservesConsistent(code: string, st: AppState, now: int, getFails: bool, setFails: bool,
                                                      maxCodeLength: nat)
    requires Consistent(st, maxCodeLength)
    ensures Consistent(ResolveSpec(code, st, now, getFails, setFails).after, maxCodeLength)
  {
    var after := ResolveSpec(code, st, now, getFails, setFails).after;
    forall c | Key(c) in after.cache.entries
      ensures FindByCode(st.rows, c).Some? && FindByCode(st.rows, c).value.longUrl == after.cache.entries[Key(c)].value
    {
      if c != code {
        if FindByCode(st.rows, code).Some? {
          SetFrame(st.cache, code, FindByCode(st.rows, code).value.longUrl, now, setFails, c, now, false);
        }
      }
    }
  }

  /**
   * Cache transparency: while the cache agrees with the store, a resolve
   * answers what the store alone would, whether the cache is connected,
   * failing, stale or cold.
   */
  lemma {:induction false} CacheTransparency(code: string, st: AppState, now: int, getFails: bool, setFails: bool)
    requires Coherent(st.rows, st.cache.entries)
    ensures ResolveSpec(code, st, now, getFails, setFails).outcome == StoreOutcome(st.rows, code)
  {
    var hit := Get(st.cache, code, now, getFails);
    if hit.Some? {
      GetHitIff(st.cache, code, now, getFails);
      assert Key(code) in st.cache.entries;
    }
  }

  /**
   * Round trip: after creating url U with code C, resolving C redirects to
   * exactly U, at any later time, whether or not the cache write succeeded,
   * and whatever the cache's connection state is by then.
   */
  lemma {:induction false} RoundTrip(request: ShortenUrlRequest, uriScheme: string -> Option<string>, settings: ShortLinkSettings,
                                     st: AppState, draws: seq<nat>, id: nat, now: int, setFails: bool,
                                     connectedLater: bool, later: int, getFails: bool, backfillFails: bool)
    requires Drawable(settings) && DrawsInRange(draws, |settings.alphabet|)
    requires Consistent(st, settings.length)
    requires ShortenSpec(request, uriScheme, settings, st, draws, id, now, setFails).outcome.Ok?
    ensures var created := ShortenSpec(request, uriScheme, settings, st, draws, id, now, setFails);
      var st' := created.after.(cache := created.after.cache.(connected := connectedLater));
      ResolveSpec(created.outcome.code, st', later, getFails, backfillFails).outcome == Redirect(request.url)
  {
    var created := ShortenSpec(request, uriScheme, settings, st, draws, id, now, setFails);
    var code := created.outcome.code;
    var row := ShortenedUrl(id, request.url, code, code, now);
    ShortenPreservesConsistent(request, uriScheme, settings, st, draws, id, now, setFails);
    FindByCodeAppend(st.rows, row, code);
    var st' := created.after.(cache := created.after.cache.(connected := connectedLater));
    CacheTransparency(code, st', later, getFails, backfillFails);
  }

  /**
   * Round trip without assuming the cache agrees with the store: when the
   * create's cache write goes through, resolving the new code redirects to
   * exactly its url, whatever the cache held before, at any later time and
   * whatever the connection state by then.
   */
  lemma {:induction false} RoundTripAfterCacheWrite(request: ShortenUrlRequest, uriScheme: string -> Option<string>,
                                                    settings: ShortLinkSettings, st: AppState, draws: seq<nat>, id: nat,
                                                    now: int, connectedLater: bool, later: int, getFails: bool,
                                                    backfillFails: bool)
    requires Drawable(settings) && DrawsInRange(draws, |settings.alphabet|)
    requires st.cache.connected && st.cache.expirationMinutes > 0
    requires ShortenSpec(request, uriScheme, settings, st, draws, id, now, false).outcome.Ok?
    ensures var created := ShortenSpec(request, uriScheme, settings, st, draws, id, now, false);
      var st' := created.after.(cache := created.after.cache.(connected := connectedLater));
      ResolveSpec(created.outcome.code, st', later, getFails, backfillFails).outcome == Redirect(request.url)
  {
    var created := ShortenSpec(request, uriScheme, settings, st, draws, id, now, false);
    var code := created.outcome.code;
    FindByCodeAppend(st.rows, ShortenedUrl(id, request.url, code, code, now), code);
    assert created.after.cache.entries[Key(code)].value == request.url;
  }

  /**
   * Why RoundTrip needs the cache to agree with the store: an entry left
   * under `url:A` by an earlier store, and a failing cache write, make the
   * resolve of a freshly created `A` redirect to the old url.
   */
  lemma StaleEntryShadowsNewCode()
    ensures var settings := ShortLinkSettings(1, "A");
      var st := AppState([], CacheState(true, 60, map[Key("A") := CacheEntry("https://stale", 100)]));
      var created := ShortenSpec(ShortenUrlRequest("https://new"), _ => Some("https"), settings, st, [0], 1, 0, true);
      created.outcome == Ok("A")
      && ResolveSpec("A", created.after, 1, false, false).outcome == Redirect("https://stale")
  {
    var settings := ShortLinkSettings(1, "A");
    assert Spell("A", [0]) == "A";
    assert [0][..1] == [0];
  }

  /** Two successive creates return distinct codes. */
  lemma {:induction false} SuccessiveCreatesDistinct(r1: ShortenUrlRequest, r2: ShortenUrlRequest, uriScheme: string -> Option<string>,
                                                     settings: ShortLinkSettings, st: AppState, draws1: seq<nat>, draws2: seq<nat>,
                                                     id1: nat, id2: nat, now1: int, now2: int, setFails1: bool, setFails2: bool)
    requires Drawable(settings)
    requires DrawsInRange(draws1, |settings.alphabet|) && DrawsInRange(draws2, |settings.alphabet|)
    requires ShortenSpec(r1, uriScheme, settings, st, draws1, id1, now1, setFails1).outcome.Ok?
    requires ShortenSpec(r2, uriScheme, settings, ShortenSpec(r1, uriScheme, settings, st, draws1, id1, now1, setFails1).after,
                         draws2, id2, now2, setFails2).outcome.Ok?
    ensures ShortenSpec(r1, uriScheme, settings, st, draws1, id1, now1, setFails1).outcome.code !=
      ShortenSpec(r2, uriScheme, settings, ShortenSpec(r1, uriScheme, settings, st, draws1, id1, now1, setFails1).after,
                  draws2, id2, now2, setFails2).outcome.code
  {
    var first := ShortenSpec(r1, uriScheme, settings, st, draws1, id1, now1, setFails1);
    var c1 := first.outcome.code;
    CodesOfAppend(st.rows, ShortenedUrl(id1, r1.url, c1, c1, now1));
    assert c1 in CodesOf(first.after.rows);
  }

  /** The `MapPost("shorten")` handler. */
  method Shorten(request: ShortenUrlRequest, uriScheme: string -> Option<string>, service: UrlShorteningService,
                 db: ShortLinkDb, cache: UrlCacheService, draws: seq<nat>, id: nat, now: int, setFails: bool)
    returns (r: Outcome)
    requires service.db == db
    requires db.Valid() && db.maxCodeLength == service.settings.length
    requires Drawable(service.settings)
    requires DrawsInRange(draws, |service.settings.alphabet|)
    modifies db, cache
    ensures db.Valid()
    ensures Response(r, AppState(db.rows, cache.State())) ==
      ShortenSpec(request, uriScheme, service.settings, old(AppState(db.rows, cache.State())), draws, id, now, setFails)
  {
    var scheme := uriScheme(request.url);
    if !AcceptedScheme(scheme) {
      return BadRequest(InvalidUrlMessage);
    }
    var code := service.GenerateUniqueCode(draws);
    if code.None? {
      return StillRetrying;
    }
    var shortenedUrl := ShortenedUrl(id, request.url, code.value, code.value, now);
    var saved := db.AddAndSave(shortenedUrl);
    // The unique index cannot reject the row here: the generator has just found its code absent.
    assert saved;
    cache.SetAsync(code.value, request.url, now, setFails);
    return Ok(code.value);
  }

  /** The `MapGet("{code}")` handler. The store is only read. */
  method Resolve(code: string, db: ShortLinkDb, cache: UrlCacheService, now: int, getFails: bool, setFails: bool)
    returns (r: Outcome)
    requires db.Valid()
    modifies cache
    ensures Response(r, AppState(db.rows, cache.State())) ==
      ResolveSpec(code, old(AppState(db.rows, cache.State())), now, getFails, setFails)
  {
    var cachedUrl := cache.GetAsync(code, now, getFails);
    if cachedUrl.Some? {
      return Redirect(cachedUrl.value);
    }
    var shortenedUrl := FindByCode(db.rows, code);
    if shortenedUrl.None? {
      return NotFound;
    }
    cache.SetAsync(code, shortenedUrl.value.longUrl, now, setFails);
    return Redirect(shortenedUrl.value.longUrl);
  }
}
