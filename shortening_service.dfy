/**
 * UrlShorteningService: generates a fresh short code against the durable
 * store. GenerateUniqueCode keeps the source's shape: a `char` buffer of the
 * configured length, overwritten position by position on every attempt, and
 * a retry loop that asks the store whether the candidate is taken.
 */
module Shortening {
  import opened Wrappers
  import opened ShortCodes
  import opened Data

  class UrlShorteningService {
    const db: ShortLinkDb
    const settings: ShortLinkSettings

    constructor (db: ShortLinkDb, settings: ShortLinkSettings)
      ensures this.db == db && this.settings == settings
    {
      this.db := db;
      this.settings := settings;
    }

    /**
     * Returns the first candidate that is not in the store, spelled from the
     * random indices `draws`. The store is only read (there is no modifies
     * clause). `None` stands for a loop that is still retrying when the draws
     * run out.
     */
    method GenerateUniqueCode(draws: seq<nat>) returns (code: Option<string>)
      requires Drawable(settings)
      requires DrawsInRange(draws, |settings.alphabet|)
      ensures code == FirstFresh(settings, db.Codes(), draws)
      ensures code.Some? ==> |code.value| == settings.length
      ensures code.Some? ==> OverAlphabet(code.value, settings.alphabet)
      ensures code.Some? ==> code.value !in db.Codes()
    {
      var codeChars := new char[settings.length];
      var maxValue := |settings.alphabet|;
      var used := 0;
      while true
        invariant used <= |draws|
        invariant FirstFresh(settings, db.Codes(), draws[used..]) == FirstFresh(settings, db.Codes(), draws)
        decreases |draws| - used
      {
        if |draws| - used < settings.length {
          // The random source is exhausted: the source would go on retrying.
          return None;
        }
        for i := 0 to settings.length
          invariant forall k :: 0 <= k < i ==> codeChars[k] == settings.alphabet[draws[used + k]]
        {
          var randomIndex := draws[used + i];
          assert randomIndex < maxValue;
          codeChars[i] := settings.alphabet[randomIndex];
        }
        var candidate := codeChars[..];
        ghost var attempt := draws[used..][..settings.length];
        forall k | 0 <= k < settings.length ensures candidate[k] == Spell(settings.alphabet, attempt)[k] {
          SpellAt(settings.alphabet, attempt, k);
        }
        assert candidate == Spell(settings.alphabet, attempt);
        if !db.AnyWithCode(candidate) {
          return Some(candidate);
        }
        if settings.length == 0 {
          // Every further attempt is the same empty code: the source spins forever.
          return None;
        }
        assert draws[used..][settings.length..] == draws[used + settings.length..];
        used := used + settings.length;
      }
    }
  }
}
