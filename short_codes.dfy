/**
 * The short-code generator of UrlShorteningService.GenerateUniqueCode, as
 * functions on values: how one candidate is spelled from random indices, and
 * which candidate the retry loop ends up returning.
 *
 * The random source is an oracle: `draws` lists the values that successive
 * calls of `Random.Next(|alphabet|)` return, each in `[0, |alphabet|)`. The
 * list is finite, so where the source would keep retrying forever the model
 * answers `None`.
 */
module ShortCodes {
  import opened Wrappers

  /** ShortLinkSettings: the configured code length and alphabet. */
  datatype ShortLinkSettings = ShortLinkSettings(length: nat, alphabet: string)

  /**
   * An alphabet to draw from whenever a code has characters: with an empty
   * alphabet and a positive length, `Alphabet[randomIndex]` throws and the
   * request fails.
   */
  predicate Drawable(s: ShortLinkSettings) {
    s.length > 0 ==> |s.alphabet| > 0
  }

  /** Every drawn index is a valid position in an alphabet of `n` characters. */
  predicate DrawsInRange(draws: seq<nat>, n: nat) {
    forall i :: 0 <= i < |draws| ==> draws[i] < n
  }

  /** Every character of `code` occurs in `alphabet`. */
  predicate OverAlphabet(code: string, alphabet: string) {
    forall i :: 0 <= i < |code| ==> code[i] in alphabet
  }

  /** The candidate spelled by one attempt: one alphabet character per draw. */
  function Spell(alphabet: string, draws: seq<nat>): (code: string)
    requires DrawsInRange(draws, |alphabet|)
    ensures |code| == |draws|
    ensures OverAlphabet(code, alphabet)
  {
    if draws == [] then [] else [alphabet[draws[0]]] + Spell(alphabet, draws[1..])
  }

  /** Position `i` of a candidate is the alphabet character at the `i`-th draw. */
  lemma {:induction false} SpellAt(alphabet: string, draws: seq<nat>, i: nat)
    requires DrawsInRange(draws, |alphabet|)
    requires i < |draws|
    ensures Spell(alphabet, draws)[i] == alphabet[draws[i]]
  {
    if i > 0 {
      SpellAt(alphabet, draws[1..], i - 1);
    }
  }

  /**
   * The code the retry loop returns: each attempt consumes `length` draws,
   * and the first candidate that is not `taken` is the answer. `None` when
   * the draws run out first, or when `length` is 0 and the empty code is
   * taken (every attempt would then repeat it without drawing anything).
   */
  function FirstFresh(s: ShortLinkSettings, taken: set<string>, draws: seq<nat>): (r: Option<string>)
    requires DrawsInRange(draws, |s.alphabet|)
    requires Drawable(s)
    ensures r.Some? ==> |r.value| == s.length
    ensures r.Some? ==> OverAlphabet(r.value, s.alphabet)
    ensures r.Some? ==> r.value !in taken
    decreases |draws|
  {
    if |draws| < s.length then None
    else
      var candidate := Spell(s.alphabet, draws[..s.length]);
      if candidate !in taken then Some(candidate)
      else if s.length == 0 then None
      else FirstFresh(s, taken, draws[s.length..])
  }

  /**
   * The candidates the loop forms, in order, one per complete group of
   * `length` draws (a single empty candidate when `length` is 0). This is the
   * reference against which FirstFresh is checked by FirstFreshIsFirst.
   */
  function Attempts(s: ShortLinkSettings, draws: seq<nat>): (a: seq<string>)
    requires DrawsInRange(draws, |s.alphabet|)
    ensures forall k :: 0 <= k < |a| ==> |a[k]| == s.length && OverAlphabet(a[k], s.alphabet)
    decreases |draws|
  {
    if |draws| < s.length then []
    else if s.length == 0 then [Spell(s.alphabet, [])]
    else [Spell(s.alphabet, draws[..s.length])] + Attempts(s, draws[s.length..])
  }

  /**
   * FirstFresh returns the first attempt that is not taken, after only taken
   * ones; and it answers `None` exactly when every attempt is taken.
   */
  lemma {:induction false} FirstFreshIsFirst(s: ShortLinkSettings, taken: set<string>, draws: seq<nat>)
    requires DrawsInRange(draws, |s.alphabet|)
    requires Drawable(s)
    ensures FirstFresh(s, taken, draws).Some? ==>
      exists k :: 0 <= k < |Attempts(s, draws)| && Attempts(s, draws)[k] == FirstFresh(s, taken, draws).value
        && forall j :: 0 <= j < k ==> Attempts(s, draws)[j] in taken
    ensures FirstFresh(s, taken, draws).None? <==>
      forall j :: 0 <= j < |Attempts(s, draws)| ==> Attempts(s, draws)[j] in taken
    decreases |draws|
  {
    if |draws| < s.length {
    } else if s.length == 0 {
      assert draws[..0] == [];
      assert Attempts(s, draws)[0] == Spell(s.alphabet, draws[..0]);
    } else {
      var candidate := Spell(s.alphabet, draws[..s.length]);
      var rest := draws[s.length..];
      FirstFreshIsFirst(s, taken, rest);
      var a := Attempts(s, draws);
      assert a == [candidate] + Attempts(s, rest);
      if candidate !in taken {
        assert FirstFresh(s, taken, draws) == Some(candidate);
        assert a[0] == candidate && a[0] !in taken;
        assert Attempts(s, draws)[0] !in taken;
        assert !(forall j :: 0 <= j < |Attempts(s, draws)| ==> Attempts(s, draws)[j] in taken);
      } else {
        if FirstFresh(s, taken, rest).Some? {
          var k :| 0 <= k < |Attempts(s, rest)| && Attempts(s, rest)[k] == FirstFresh(s, taken, rest).value
            && forall j :: 0 <= j < k ==> Attempts(s, rest)[j] in taken;
          assert a[k + 1] == Attempts(s, rest)[k];
          assert forall j :: 0 <= j < k + 1 ==> a[j] in taken by {
            forall j | 0 <= j < k + 1 ensures a[j] in taken {
              if j > 0 { assert a[j] == Attempts(s, rest)[j - 1]; }
            }
          }
        } else {
          forall j | 0 <= j < |a| ensures a[j] in taken {
            if j > 0 { assert a[j] == Attempts(s, rest)[j - 1]; }
          }
        }
        if forall j :: 0 <= j < |a| ==> a[j] in taken {
          forall j | 0 <= j < |Attempts(s, rest)| ensures Attempts(s, rest)[j] in taken {
            assert a[j + 1] == Attempts(s, rest)[j];
          }
        }
      }
    }
  }

  /** A code that is already taken, such as a pre-seeded one, is never returned. */
  lemma TakenNeverReturned(s: ShortLinkSettings, taken: set<string>, draws: seq<nat>, seeded: string)
    requires DrawsInRange(draws, |s.alphabet|)
    requires Drawable(s)
    requires seeded in taken
    ensures FirstFresh(s, taken, draws) != Some(seeded)
  {
  }
}
