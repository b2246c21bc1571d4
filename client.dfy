/**
 * The web client's short-URL composer, from `shortenUrl` in api.ts: the
 * server's payload has one leading and one trailing double quote removed (the
 * regular expression /^"|"$/g), and the result is appended to the page's
 * origin. The payload and the origin are parameters here.
 */
module Client {
  import opened ShortCodes

  const Quote: char := '"'

  /** `payload.replace(/^"|"$/g, '')`. */
  function StripQuotes(payload: string): (code: string)
    ensures |code| <= |payload| <= |code| + 2
  {
    var afterLead := if |payload| > 0 && payload[0] == Quote then payload[1..] else payload;
    if |afterLead| > 0 && afterLead[|afterLead| - 1] == Quote then afterLead[..|afterLead| - 1] else afterLead
  }

  /**
   * On a payload of two or more characters, exactly the interior survives:
   * position 0 is dropped only when it is a quote, the last position only
   * when it is a quote, and nothing in between is touched (a second leading
   * or trailing quote included).
   */
  lemma StripKeepsInterior(payload: string)
    requires |payload| >= 2
    ensures StripQuotes(payload) ==
      payload[(if payload[0] == Quote then 1 else 0)..(if payload[|payload| - 1] == Quote then |payload| - 1 else |payload|)]
  {
    if payload[0] == Quote {
      assert payload[1..][|payload| - 2] == payload[|payload| - 1];
      assert payload[1..][..|payload| - 2] == payload[1..|payload| - 1];
    }
  }

  /** A one-character payload: a lone quote is removed (by the leading match), anything else is kept. */
  lemma StripSingle(payload: string)
    requires |payload| == 1
    ensures StripQuotes(payload) == if payload[0] == Quote then "" else payload
  {
  }

  /** Wrapping any string in one pair of quotes and stripping gives it back, interior or edge quotes included. */
  lemma StripWrapped(c: string)
    ensures StripQuotes([Quote] + c + [Quote]) == c
  {
    var p := [Quote] + c + [Quote];
    assert p[1..] == c + [Quote];
    assert (c + [Quote])[..|c|] == c;
  }

  /** A payload that neither starts nor ends with a quote passes through unchanged. */
  lemma StripUnquoted(payload: string)
    requires payload == [] || (payload[0] != Quote && payload[|payload| - 1] != Quote)
    ensures StripQuotes(payload) == payload
  {
  }

  /** Only one quote is removed at each end: a doubled edge quote keeps one, whatever lies between. */
  lemma StripOnlyOneEachEnd(c: string)
    ensures StripQuotes([Quote, Quote] + c + [Quote, Quote]) == [Quote] + c + [Quote]
  {
    var p := [Quote, Quote] + c + [Quote, Quote];
    StripKeepsInterior(p);
    assert p[1..|p| - 1] == [Quote] + c + [Quote];
  }

  /** The short URL shown to the user: `${origin}/${code}`. */
  function ShortUrl(origin: string, payload: string): (url: string)
    ensures |url| == |origin| + 1 + |StripQuotes(payload)|
    ensures url[..|origin|] == origin && url[|origin|] == '/' && url[|origin| + 1..] == StripQuotes(payload)
  {
    origin + "/" + StripQuotes(payload)
  }

  /**
   * For a code generated over an alphabet without a quote character, the
   * short URL is the origin, a slash and the code, whether the payload
   * carries the code bare or as a quoted JSON string.
   */
  lemma GeneratedCodeComposes(origin: string, code: string, alphabet: string)
    requires OverAlphabet(code, alphabet) && Quote !in alphabet
    ensures ShortUrl(origin, code) == origin + "/" + code
    ensures ShortUrl(origin, [Quote] + code + [Quote]) == origin + "/" + code
  {
    if code != [] {
      assert code[0] in alphabet && code[|code| - 1] in alphabet;
    }
    StripUnquoted(code);
    StripWrapped(code);
  }
}
