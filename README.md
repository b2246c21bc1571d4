# UrlShortener core, modelled and verified in Dafny

This project models the logic of the UrlShortener service:

- the **short-code generator**: `UrlShorteningService.GenerateUniqueCode`;
- the **cache-aside lookup** of `UrlCacheService`;
- the two request handlers of the API, `POST /shorten` and `GET /{code}`;
- the **short-URL composer** of the web client (`shortenUrl` in `api.ts`).

The model proves these properties:

- A generated code has the configured length, uses only alphabet characters, and is absent from the store.
- The cache reads as a miss or does nothing when disconnected or failing. It namespaces keys as `url:<code>` and treats an empty value as a miss.
- A create keeps codes unique.
- Creating a URL and then resolving its code redirects to exactly that URL, provided the cache held no entry that disagrees with the store, or the create's own cache write went through.
- While the cache agrees with the store, a resolve answers what the store alone would answer.

Files and modules:

- `wrappers.dfy` (`Wrappers`): `Option`, which stands for C#'s `null`.
- `short_codes.dfy` (`ShortCodes`): settings, how one candidate is spelled from random indices, and which candidate the retry loop returns, as functions with lemmas.
- `shortening_service.dfy` (`Shortening`): the class `UrlShorteningService`. Its `GenerateUniqueCode` keeps the source's `char` buffer, the inner `for` loop that overwrites it, and the outer retry loop that queries the store.
- `data.dfy` (`Data`): the `ShortenedUrl` record and the class `ShortLinkDb` over a `seq` of rows. Its invariant is the unique index on `Code` plus the column's declared maximum length.
- `cache.dfy` (`Cache`): the class `UrlCacheService`, with a connection flag, the entry lifetime in minutes, and a `map` of backend entries. `Get` and `Set` are the functions on values that specify its two methods.
- `endpoints.dfy` (`Endpoints`): the two handlers as methods over the store and cache objects. Each is proved against a function on values (`ShortenSpec`, `ResolveSpec`), and the lemmas are stated over those functions.
- `client.dfy` (`Client`): quote stripping and URL composition.

Outside collaborators become parameters:

- **Random source.** `draws` lists the values that successive `Random.Next(|alphabet|)` calls return.
- **`Uri.TryCreate`.** `uriScheme` maps a URL to `None` when it is not absolute, and otherwise to its scheme.
- **`Guid.NewGuid` and `DateTime.UtcNow`.** These become `id` and `now`.
- **Clock.** A logical clock in minutes (`now`) decides cache expiry.
- **Cache backend failure.** Each cache call takes a `backendFails` flag. It stands for an exception that the service catches and logs.
- **Client environment.** The server's payload and `window.location.origin` become `payload` and `origin`.

Two facts about the code shape the model:

- **No retry on insert.** The code does not retry when the unique index rejects an insert: `SaveChangesAsync` is not wrapped in any handler, so nothing in the model retries either. In the sequential model that rejection cannot happen, and `Endpoints.Shorten` proves it (`assert saved`).
- **Short URL.** The stored `ShortUrl` is the bare code (`Program.cs:104`). The full URL is composed only by the client, from the page origin.

## Model

| member | source | states |
|---|---|---|
| `ShortCodes.Spell` | UrlShortener.API/Services/UrlShorteningService.cs:23-29 | a candidate has one character per draw, every one of them from the alphabet |
| `ShortCodes.SpellAt` | UrlShortener.API/Services/UrlShorteningService.cs:25-26 | position i of a candidate is the alphabet character at the i-th random index |
| `ShortCodes.FirstFresh` | UrlShortener.API/Services/UrlShorteningService.cs:18-35 | a returned code has exactly the configured length, only alphabet characters, and is not among the taken codes |
| `ShortCodes.Attempts` | UrlShortener.API/Services/UrlShorteningService.cs:21-35 | the loop's attempts in order, each of the configured length over the alphabet |
| `ShortCodes.FirstFreshIsFirst` | UrlShortener.API/Services/UrlShorteningService.cs:21-35 | the loop returns the first attempt not in the store, after only taken ones, and goes on retrying exactly when every attempt is taken (there is no other exit) |
| `ShortCodes.TakenNeverReturned` | UrlShortener.Tests/Services/UrlShorteningServiceTests.cs:65-87 | a pre-seeded code is never returned |
| `Shortening.UrlShorteningService.GenerateUniqueCode` | UrlShortener.API/Services/UrlShorteningService.cs:16-36 | the buffer-filling loop inside the retry loop returns the first fresh candidate. Every attempt overwrites all `Length` positions, so nothing leaks from a rejected candidate. The result has the right length, only alphabet characters, and is absent from the store. The store is only read |
| `Shortening.UrlShorteningService.constructor` | UrlShortener.API/Services/UrlShorteningService.cs:8-14 | the service holds the store and the settings it was given |
| `Data.FindByCode` | UrlShortener.API/Program.cs:129 | `SingleOrDefault(s => s.Code == code)`: a row is found exactly when the code is in the table, and the row found has that code |
| `Data.FindByCodeIsSingle` | UrlShortener.API/Data/ApplicationDbContext.cs:39-41 | under the unique index, the row found is the only row with that code, which is what `SingleOrDefault` relies on |
| `Data.FindByCodeAppend` | UrlShortener.API/Program.cs:108-109 | inserting a row with a new code makes it findable and leaves every other lookup unchanged |
| `Data.CodesOfAppend` | UrlShortener.API/Program.cs:108-109 | inserting a row adds exactly its code to the table's codes |
| `Data.CodesOfCons` | UrlShortener.API/Program.cs:129 | a table's codes are its first row's code together with the codes of the rest |
| `Data.ShortLinkDb.constructor` | UrlShortener.API/Program.cs:65-69 | a freshly created database has an empty table that meets the invariant |
| `Data.ShortLinkDb.AnyWithCode` | UrlShortener.API/Services/UrlShorteningService.cs:31 | `AnyAsync(s => s.Code == code)` is true exactly when some row carries the code, that is, when the code is in the table's codes |
| `Data.ShortLinkDb.AddAndSave` | UrlShortener.API/Data/ApplicationDbContext.cs:35-41 | Add plus SaveChanges: the unique index rejects a duplicate code and otherwise appends the row. Either way the invariant (unique codes within the declared length) is kept |
| `Cache.Key` | UrlShortener.API/Services/UrlCacheService.cs:38 | the key is `url:` followed by the code, and the code can be read back from it |
| `Cache.KeyInjective` | UrlShortener.API/Services/UrlCacheService.cs:38 | distinct codes have distinct keys |
| `Cache.ExpirationMinutes` | UrlShortener.API/Services/UrlCacheService.cs:24 | the entry lifetime is the configured value, and 60 minutes when none is configured |
| `Cache.Get` | UrlShortener.API/Services/UrlCacheService.cs:28-46 | a hit needs a connection, a backend that answers, and a non-empty value |
| `Cache.Set` | UrlShortener.API/Services/UrlCacheService.cs:48-68 | a write never changes the connection flag or the lifetime, and does nothing when disconnected, failing, or given a lifetime that is not positive |
| `Cache.GetHitIff` | UrlShortener.API/Services/UrlCacheService.cs:30-39 | a read hits if and only if connected, no backend error, and a live non-empty entry under `url:code`; the hit is that entry's value |
| `Cache.Unavailable` | UrlShortener.API/Services/UrlCacheService.cs:30-33 | disconnected or failing: reads return a miss and writes change nothing |
| `Cache.EmptyIsMiss` | UrlShortener.API/Services/UrlCacheService.cs:39 | a stored empty string reads back as a miss |
| `Cache.SetThenGet` | UrlShortener.API/Services/UrlCacheService.cs:58-62 | after a successful write of a non-empty url, a read before expiry returns that url |
| `Cache.SetThenExpire` | UrlShortener.API/Services/UrlCacheService.cs:61 | once the lifetime has passed, the written entry reads as a miss |
| `Cache.NonPositiveLifetimeRejected` | UrlShortener.API/Services/UrlCacheService.cs:58-67 | a write with a lifetime that is not positive fails at the backend and is swallowed: the cache, and any previous value under `url:code`, stay as they were |
| `Cache.SetFrame` | UrlShortener.API/Services/UrlCacheService.cs:58-62 | a write changes only key `url:code`; every other entry and every other code's read are unchanged |
| `Cache.UrlCacheService.constructor` | UrlShortener.API/Services/UrlCacheService.cs:17-26 | the service starts with the given connection and entries, and the configured lifetime (default 60) |
| `Cache.UrlCacheService.GetAsync` | UrlShortener.API/Services/UrlCacheService.cs:28-46 | the method answers as `Get` does; a hit is the non-empty value stored under `url:code` |
| `Cache.UrlCacheService.SetAsync` | UrlShortener.API/Services/UrlCacheService.cs:48-68 | the new cache state is `Set` of the old one; failures are swallowed |
| `Endpoints.AcceptedScheme` | UrlShortener.API/Program.cs:90-93 | a URL is accepted exactly when its scheme is `http` or `https`, so a URL that is not absolute (`None`) is rejected |
| `Endpoints.ShortenSpec` | UrlShortener.API/Program.cs:89-113 | a create adds exactly one row at the end, or changes nothing; it answers BadRequest, Ok or still retrying |
| `Endpoints.ResolveSpec` | UrlShortener.API/Program.cs:120-138 | a resolve never changes the store; it answers Redirect or NotFound, and NotFound changes nothing |
| `Endpoints.ShortenRejectsInvalid` | UrlShortener.API/Program.cs:90-96 | BadRequest with the message, touching neither store nor cache, exactly when the URL is not absolute http or https |
| `Endpoints.ShortenCreatesOneRecord` | UrlShortener.API/Program.cs:98-113 | on success exactly one record is added: LongUrl is the request url, and Code and ShortUrl are the returned fresh code of the configured length. The cache receives the url under that code |
| `Endpoints.ResolveCacheHit` | UrlShortener.API/Program.cs:122-126 | on a cache hit, redirect to the cached url without touching the store or the cache |
| `Endpoints.ResolveNotFound` | UrlShortener.API/Program.cs:129-133 | on a miss with no record, NotFound and the cache is unchanged |
| `Endpoints.ResolveBackfills` | UrlShortener.API/Program.cs:129-137 | on a miss with a record, the cache is backfilled with its LongUrl and the client is redirected to it |
| `Endpoints.ShortenPreservesConsistent` | UrlShortener.API/Data/ApplicationDbContext.cs:35-41 | a create keeps codes unique and within the declared length, and keeps every cache entry equal to its code's stored LongUrl |
| `Endpoints.ResolvePreservesConsistent` | UrlShortener.API/Program.cs:129-137 | a resolve keeps the store and cache consistent |
| `Endpoints.CacheTransparency` | UrlShortener.API/Program.cs:117-139 | while the cache agrees with the store, a resolve answers what the store alone would, whatever the cache's connection, failures or expiry |
| `Endpoints.RoundTrip` | UrlShortener.API/Program.cs:98-139 | while the cache agrees with the store, creating U and then resolving the returned code redirects to exactly U. This holds at any later time, whatever the connection flag is by then, and whether or not the cache write, the later read or the backfill fail |
| `Endpoints.RoundTripAfterCacheWrite` | UrlShortener.API/Program.cs:98-139 | when the create's cache write goes through, creating U and then resolving the returned code redirects to exactly U, whatever the cache held before, at any later time and connection state |
| `Endpoints.StaleEntryShadowsNewCode` | UrlShortener.API/Services/UrlCacheService.cs:64-67 | an entry left under `url:A` by an earlier store, plus a failing cache write, makes the resolve of a freshly created `A` redirect to the old URL |
| `Endpoints.SuccessiveCreatesDistinct` | UrlShortener.Tests/Integration/UrlShortenerApiTests.cs:115-127 | two successive creates return distinct codes |
| `Endpoints.Shorten` | UrlShortener.API/Program.cs:81-115 | the create handler's outcome and its new store and cache are those of `ShortenSpec`, and the store invariant holds afterwards |
| `Endpoints.Resolve` | UrlShortener.API/Program.cs:117-139 | on a store that keeps its unique index, the resolve handler's outcome and its new cache are those of `ResolveSpec`; the store is not changed |
| `Client.StripQuotes` | UrlShortener.Web/src/services/api.ts:20 | at most two characters are removed in all; which ones is stated by `StripKeepsInterior` and `StripSingle` |
| `Client.StripKeepsInterior` | UrlShortener.Web/src/services/api.ts:20 | the first character is removed only if it is a quote, the last only if it is a quote, and everything in between is kept |
| `Client.StripSingle` | UrlShortener.Web/src/services/api.ts:20 | a lone quote becomes empty; any other single character is kept |
| `Client.StripWrapped` | UrlShortener.Web/src/services/api.ts:20 | stripping `"` + c + `"` gives c, for every c |
| `Client.StripUnquoted` | UrlShortener.Web/src/services/api.ts:20 | a payload without a leading or trailing quote passes through unchanged |
| `Client.StripOnlyOneEachEnd` | UrlShortener.Web/src/services/api.ts:20 | for every c, stripping `""` + c + `""` gives `"` + c + `"`: a second leading or trailing quote is kept |
| `Client.ShortUrl` | UrlShortener.Web/src/services/api.ts:22-23 | the result is the origin, then `/`, then the stripped payload |
| `Client.GeneratedCodeComposes` | UrlShortener.Web/src/services/api.ts:20-23 | over an alphabet without `"`, a generated code gives origin + `/` + code, whether it arrives bare or quoted |

## Left out

- Concurrency and async/await are not modelled; requests run one after another. The race between the freshness check (`UrlShorteningService.cs:31`) and the insert (`Program.cs:108-109`) is therefore out of scope. In the sequential model the unique index never rejects a generated code. In the source such a rejection would surface as an unhandled exception, a server error.
- Durable-store unavailability is not modelled. It is an uncaught exception, so a server error.
- Shortening.UrlShorteningService.GenerateUniqueCode: the random source is a finite list of draws, which stands in for the unbounded `while (true)` loop. When the draws run out, the model answers `None` (`StillRetrying` at the handler), where the source would keep retrying forever. With `Length` 0 and the empty code already stored, the source spins without drawing, and the model answers `None` at once.
- Shortening.UrlShorteningService.GenerateUniqueCode: it requires a non-empty alphabet whenever `Length > 0`. In the source an empty alphabet makes `Alphabet[randomIndex]` throw.
- Endpoints.ShortenSpec: it requires a non-empty alphabet whenever `Length > 0` (`ShortCodes.Drawable`), and so do `ShortCodes.FirstFresh` and the lemmas about both. With an empty alphabet, `Alphabet[randomIndex]` (`UrlShorteningService.cs:26`) throws and the request fails with a server error, an outcome the model does not represent.
- A C# `char` is a UTF-16 code unit, and a Dafny `char` is a Unicode scalar value. The model reads each C# `char` as one Dafny `char`, so it assumes the alphabet holds only Basic Multilingual Plane characters, as the test alphabet does (`UrlShortener.Tests/Services/UrlShorteningServiceTests.cs:23`). Under that assumption `Alphabet.Length` and code lengths agree. For an alphabet with surrogate pairs, the source can draw half of a pair, and the model does not represent that.
- Randomness quality and uniformity of `System.Random` are left out; draws are arbitrary values in range.
- `Uri.TryCreate` parsing is a .NET library call. It is the parameter `uriScheme`; only the http/https check on its result is modelled.
- `Guid.NewGuid`, `DateTime.UtcNow` and logging are left out. The first two are parameters, and the `LogWarning` calls are omitted.
- Endpoints.RoundTrip: it assumes the cache holds only entries written against the current store (`Coherent`). The generator checks only the store (`UrlShorteningService.cs:31`), and the cache backend can outlive the database. An older entry under a newly generated code, together with a failing cache write, therefore makes the resolve redirect to the old URL (`StaleEntryShadowsNewCode`). Without that assumption the round trip is proved only when the create's cache write goes through (`RoundTripAfterCacheWrite`).
- ShortCodes.ShortLinkSettings: the length is a `nat`. A negative configured `Length` makes `new char[_settings.Length]` (`UrlShorteningService.cs:18`) throw on every create, and the model does not represent that failure.
- Endpoints.Resolve: it requires the store's unique index to hold. `SingleOrDefaultAsync` (`Program.cs:129`) would throw on duplicate codes, a state the index rules out.
- Cache entries expire on a logical clock in minutes. The backend's own eviction and the wall clock are not modelled.
- Cache.UrlCacheService.SetAsync: a lifetime that is not positive is modelled as a command the backend refuses. The service swallows that error like any other, so the previous value under `url:code` stays. The backend's exact error message is not modelled.
- Cache.UrlCacheService.connected: `IsConnected` is changed by the connection multiplexer, which is outside the service. The model has no operation that changes it. `RoundTrip` lets it take any value between the create and the resolve.
- The Code column's declared maximum length is kept as an invariant that every insert meets: generated codes have exactly that length. SQLite does not enforce declared lengths, so no rejection for overlong codes is modelled.
- `ShortLinkSettings` (its default length and alphabet) is not part of this model. The settings are a parameter.
- Dependency injection, CORS, Swagger, HTTPS redirection, Redis connection bootstrap (`Program.cs:8-79,141`), and the database's file path selection are framework wiring.
- HTTP encoding is replaced by the `Outcome` datatype, including the JSON encoding of `Results.Ok(code)`.
- `axios` and `window.location` are left out; the response payload and the origin are parameters.
