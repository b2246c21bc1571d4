/**
 * UrlCacheService: a best-effort cache in front of the durable store, over a
 * string key-value backend with per-entry expiry.
 *
 * Time is a logical clock in minutes, passed in by the caller. A backend
 * failure (connection lost, timeout, command error) is a `backendFails`
 * argument of each call; the service swallows it.
 */
module Cache {
  import opened Wrappers

  /** `Redis:CacheExpirationMinutes` when it is not configured. */
  const DefaultExpirationMinutes: int := 60

  const KeyPrefix: string := "url:"

  /** A stored value and the minute at which it expires. */
  datatype CacheEntry = CacheEntry(value: string, expiresAt: int)

  /** What the service sees: the connection flag, the lifetime it applies, and the backend's entries. */
  datatype CacheState = CacheState(connected: bool, expirationMinutes: int, entries: map<string, CacheEntry>)

  /** The backend key for a code. */
  function Key(code: string): (k: string)
    ensures |k| == |KeyPrefix| + |code|
    ensures k[..|KeyPrefix|] == KeyPrefix && k[|KeyPrefix|..] == code
  {
    KeyPrefix + code
  }

  /** Distinct codes have distinct keys, so one code's entry never shadows another's. */
  lemma KeyInjective(a: string, b: string)
    requires Key(a) == Key(b)
    ensures a == b
  {
    assert a == Key(a)[|KeyPrefix|..];
  }

  /** The configured lifetime, or the default when the setting is absent. */
  function ExpirationMinutes(configured: Option<int>): (m: int)
    ensures configured.None? ==> m == DefaultExpirationMinutes
    ensures configured.Some? ==> m == configured.value
  {
    configured.GetOr(DefaultExpirationMinutes)
  }

  /** A backend GET: the value of an entry that has not yet expired at `now`. */
  function Lookup(entries: map<string, CacheEntry>, key: string, now: int): Option<string> {
    if key in entries && now < entries[key].expiresAt then Some(entries[key].value) else None
  }

  /**
   * GetAsync: a miss when not connected or when the backend fails; otherwise
   * the live entry under `url:code`, an empty value counting as a miss.
   */
  function Get(c: CacheState, code: string, now: int, backendFails: bool): (r: Option<string>)
    ensures r.Some? ==> c.connected && !backendFails && r.value != ""
  {
    if !c.connected || backendFails then None
    else
      match Lookup(c.entries, Key(code), now)
      case Some(v) => if v == "" then None else Some(v)
      case None => None
  }

  /**
   * SetAsync: no effect when not connected or when the backend fails;
   * otherwise `url:code` holds `url` for the configured lifetime. The backend
   * rejects a lifetime that is not positive, an error the service swallows
   * like any other.
   */
  function Set(c: CacheState, code: string, url: string, now: int, backendFails: bool): (c': CacheState)
    ensures c'.connected == c.connected && c'.expirationMinutes == c.expirationMinutes
    ensures !c.connected || backendFails || c.expirationMinutes <= 0 ==> c' == c
  {
    if !c.connected || backendFails || c.expirationMinutes <= 0 then c
    else c.(entries := c.entries[Key(code) := CacheEntry(url, now + c.expirationMinutes)])
  }

  /** A read hits exactly when connected, the backend answers, and a live non-empty entry sits under the code's key. */
  lemma GetHitIff(c: CacheState, code: string, now: int, backendFails: bool)
    ensures Get(c, code, now, backendFails).Some? <==>
      c.connected && !backendFails && Key(code) in c.entries
      && now < c.entries[Key(code)].expiresAt && c.entries[Key(code)].value != ""
    ensures Get(c, code, now, backendFails).Some? ==>
      Get(c, code, now, backendFails).value == c.entries[Key(code)].value
  {
  }

  /** Disconnected or failing backend: every read misses and every write changes nothing. */
  lemma Unavailable(c: CacheState, code: string, url: string, now: int, backendFails: bool)
    requires !c.connected || backendFails
    ensures Get(c, code, now, backendFails) == None
    ensures Set(c, code, url, now, backendFails) == c
  {
  }

  /** A stored empty string reads back as a miss. */
  lemma EmptyIsMiss(c: CacheState, code: string, now: int, backendFails: bool)
    requires Key(code) in c.entries && c.entries[Key(code)].value == ""
    ensures Get(c, code, now, backendFails) == None
  {
  }

  /** A successful write of a non-empty url is read back until it expires. */
  lemma {:induction false} SetThenGet(c: CacheState, code: string, url: string, setAt: int, now: int, getFails: bool)
    requires c.connected && !getFails && url != ""
    requires setAt <= now < setAt + c.expirationMinutes
    ensures Get(Set(c, code, url, setAt, false), code, now, getFails) == Some(url)
  {
  }

  /** A lifetime that is not positive is refused by the backend: the write leaves the cache, and the previous value, as they were. */
  lemma NonPositiveLifetimeRejected(c: CacheState, code: string, url: string, now: int, backendFails: bool, t: int, getFails: bool)
    requires c.expirationMinutes <= 0
    ensures Set(c, code, url, now, backendFails) == c
    ensures Get(Set(c, code, url, now, backendFails), code, t, getFails) == Get(c, code, t, getFails)
  {
  }

  /** Once expired, a written entry reads as a miss. */
  lemma SetThenExpire(c: CacheState, code: string, url: string, setAt: int, now: int, getFails: bool)
    requires now >= setAt + c.expirationMinutes
    requires c.connected && c.expirationMinutes > 0
    ensures Get(Set(c, code, url, setAt, false), code, now, getFails) == None
  {
  }

  /** A write touches only its own key: reads of every other code, entries under every other key, and the settings are unchanged. */
  lemma SetFrame(c: CacheState, code: string, url: string, now: int, backendFails: bool, other: string, t: int, getFails: bool)
    requires other != code
    ensures Get(Set(c, code, url, now, backendFails), other, t, getFails) == Get(c, other, t, getFails)
    ensures Set(c, code, url, now, backendFails).connected == c.connected
    ensures Set(c, code, url, now, backendFails).expirationMinutes == c.expirationMinutes
    ensures forall k :: k in c.entries && k != Key(code) ==>
      k in Set(c, code, url, now, backendFails).entries && Set(c, code, url, now, backendFails).entries[k] == c.entries[k]
    ensures Set(c, code, url, now, backendFails).entries.Keys <= c.entries.Keys + {Key(code)}
  {
    if Key(other) == Key(code) {
      KeyInjective(other, code);
    }
  }

  class UrlCacheService {
    /** `_redis?.IsConnected`: maintained by the connection multiplexer, outside the service. */
    var connected: bool
    /** `_cacheExpirationMinutes`. */
    const expirationMinutes: int
    /** The backend's key-value entries. */
    var entries: map<string, CacheEntry>

    function State(): CacheState
      reads this
    {
      CacheState(connected, expirationMinutes, entries)
    }

    /** Reads `Redis:CacheExpirationMinutes`, defaulting to 60. */
    constructor (connected: bool, configuredMinutes: Option<int>, entries: map<string, CacheEntry>)
      ensures State() == CacheState(connected, ExpirationMinutes(configuredMinutes), entries)
    {
      this.connected := connected;
      expirationMinutes := ExpirationMinutes(configuredMinutes);
      this.entries := entries;
    }

    method GetAsync(code: string, now: int, backendFails: bool) returns (r: Option<string>)
      ensures r == Get(State(), code, now, backendFails)
      ensures r.Some? ==> r.value != "" && Key(code) in entries && r.value == entries[Key(code)].value
    {
      if !connected {
        return None;
      }
      if backendFails {
        // Logged as a warning and reported as a miss.
        return None;
      }
      var key := KeyPrefix + code;
      var cachedUrl := Lookup(entries, key, now);
      if cachedUrl.None? || cachedUrl.value == "" {
        return None;
      }
      return cachedUrl;
    }

    method SetAsync(code: string, url: string, now: int, backendFails: bool)
      modifies this`entries
      ensures State() == Set(old(State()), code, url, now, backendFails)
    {
      if !connected {
        return;
      }
      if backendFails || expirationMinutes <= 0 {
        // The command fails (a lost connection, or an expiry the backend refuses);
        // logged as a warning, nothing is written.
        return;
      }
      entries := entries[KeyPrefix + code := CacheEntry(url, now + expirationMinutes)];
    }
  }
}
