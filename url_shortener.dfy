/**
 * The URL shortener of boilerplate-urlshortener/index.js: an in-memory table of
 * {original_url, short_url} entries that only grows, and a counter that hands out the next id.
 *
 * The WHATWG `URL` constructor and `dns.lookup` are not part of this model: the first is a
 * parameter `parse` (None where the constructor throws), the second a parameter `resolves`
 * that answers, for one request, whether the host name resolved.
 */
module UrlShortener {
  import opened Wrappers
  import opened JsNumbers

  /** What the handler reads off a parsed `URL`: its `protocol` (with the colon) and `hostname`. */
  datatype UrlParts = UrlParts(protocol: string, hostname: string)

  type UrlParser = string -> Option<UrlParts>
  type HostResolver = string -> bool

  /** One row of `urlDatabase`. */
  datatype Entry = Entry(originalUrl: string, shortUrl: nat)

  /** The JSON body of a POST response. */
  datatype ShortenResponse = Created(originalUrl: string, shortUrl: nat) | ShortenError(error: string)

  /** A GET response: a redirect to the stored URL, or a JSON error body. */
  datatype LookupResponse = Redirect(location: string) | LookupError(error: string)

  const INVALID_URL := "invalid url"
  const NOT_FOUND := "short url not found"

  /** `isValidUrl`: the string parses as a URL whose scheme is http or https; a parse that throws is false. */
  predicate IsValidUrl(parse: UrlParser, url: string)
    ensures parse(url).None? ==> !IsValidUrl(parse, url)
    ensures parse(url).Some? ==> (IsValidUrl(parse, url) <==> parse(url).value.protocol in {"http:", "https:"})
  {
    match parse(url)
    case None => false
    case Some(parts) => parts.protocol == "http:" || parts.protocol == "https:"
  }

  /** The table invariant: the ids are 1, 2, ..., n in insertion order and the counter is n + 1. */
  predicate Numbered(entries: seq<Entry>, counter: int) {
    counter == |entries| + 1 &&
    forall i :: 0 <= i < |entries| ==> entries[i].shortUrl == i + 1
  }

  /** `urlDatabase.find(entry => entry.short_url === key)`: the first entry carrying `key`. */
  function Find(entries: seq<Entry>, key: int): (r: Option<Entry>)
    ensures r.None? <==> forall i :: 0 <= i < |entries| ==> entries[i].shortUrl != key
    ensures r.Some? ==> exists i :: 0 <= i < |entries| && entries[i] == r.value && r.value.shortUrl == key &&
                                    forall j :: 0 <= j < i ==> entries[j].shortUrl != key
  {
    if entries == [] then None
    else if entries[0].shortUrl == key then Some(entries[0])
    else
      var r := Find(entries[1..], key);
      assert forall i :: 1 <= i < |entries| ==> entries[i] == entries[1..][i - 1];
      r
  }

  /** The invariant starts out true. */
  lemma NumberedInitially()
    ensures Numbered([], 1)
  {
  }

  /**
   * Appending an entry that carries the counter, and incrementing the counter, keeps the invariant.
   * The counter it hands out is at least 1, so every id is a positive number.
   */
  lemma NumberedAppend(entries: seq<Entry>, counter: int, url: string)
    requires Numbered(entries, counter)
    ensures counter >= 1
    ensures Numbered(entries + [Entry(url, counter)], counter + 1)
  {
  }

  /** Under the invariant every id lies in 1 .. counter - 1: ids the counter has issued and none other. */
  lemma NumberedIdsBounded(entries: seq<Entry>, counter: int)
    requires Numbered(entries, counter)
    ensures forall k :: 0 <= k < |entries| ==> 0 < entries[k].shortUrl < counter
  {
  }

  /** Under the invariant ids are strictly increasing, hence unique, and all below the counter. */
  lemma NumberedIncreasing(entries: seq<Entry>, counter: int, i: int, j: int)
    requires Numbered(entries, counter)
    requires 0 <= i < j < |entries|
    ensures 0 < entries[i].shortUrl < entries[j].shortUrl < counter
  {
  }

  /**
   * Under the invariant the first entry carrying `key` is the one at position key - 1, and it is the
   * only one; a key outside 1 .. counter - 1 is carried by no entry.
   */
  lemma FindNumbered(entries: seq<Entry>, counter: int, key: int)
    requires Numbered(entries, counter)
    ensures Find(entries, key) == if 0 < key < counter then Some(entries[key - 1]) else None
    ensures 0 < key < counter ==> forall i :: 0 <= i < |entries| && entries[i].shortUrl == key ==> i == key - 1
  {
    if 0 < key < counter {
      assert entries[key - 1].shortUrl == key;
    }
  }

  /** The module state `urlDatabase` and `shortUrlCounter`. */
  class UrlStore {
    var urlDatabase: seq<Entry>
    var shortUrlCounter: nat

    ghost predicate Valid()
      reads this
    {
      Numbered(urlDatabase, shortUrlCounter)
    }

    /** The state at start-up: an empty table and the counter at 1. */
    constructor ()
      ensures Valid()
      ensures urlDatabase == [] && shortUrlCounter == 1
    {
      urlDatabase := [];
      shortUrlCounter := 1;
      NumberedInitially();
    }

    /**
     * POST /api/shorturl with body field `url`. An entry is added exactly when the URL is valid and
     * its host name resolves; it carries the counter's old value, which is also the value returned.
     * Otherwise the response is the "invalid url" error and the store is unchanged.
     */
    method Shorten(parse: UrlParser, resolves: HostResolver, url: string) returns (r: ShortenResponse)
      requires Valid()
      modifies this
      ensures Valid()
      ensures r.Created? <==> IsValidUrl(parse, url) && resolves(parse(url).value.hostname)
      ensures r.Created? ==>
                r == Created(url, old(shortUrlCounter)) &&
                urlDatabase == old(urlDatabase) + [Entry(url, old(shortUrlCounter))] &&
                shortUrlCounter == old(shortUrlCounter) + 1
      ensures r.ShortenError? ==>
                r.error == INVALID_URL &&
                urlDatabase == old(urlDatabase) && shortUrlCounter == old(shortUrlCounter)
      ensures r.Created? ==> Lookup(DecimalString(r.shortUrl)) == Redirect(url)
    {
      if !IsValidUrl(parse, url) {
        return ShortenError(INVALID_URL);
      }
      var parts := parse(url).value;
      if !resolves(parts.hostname) {
        return ShortenError(INVALID_URL);
      }
      var shortUrl := shortUrlCounter;
      shortUrlCounter := shortUrlCounter + 1;
      NumberedAppend(urlDatabase, shortUrl, url);
      urlDatabase := urlDatabase + [Entry(url, shortUrl)];
      r := Created(url, shortUrl);
      ParseIntDecimalString(shortUrl);
    }

    /**
     * GET /api/shorturl/:short_url. The parameter goes through parseInt; the response redirects to
     * the URL stored under that id when the id is one the store has issued, and is the
     * "short url not found" error otherwise (NaN included).
     */
    function Lookup(param: string): (r: LookupResponse)
      reads this
      requires Valid()
      ensures r.Redirect? <==> ParseInt(param).Some? && 0 < ParseInt(param).value < shortUrlCounter
      ensures r.Redirect? ==> r.location == urlDatabase[ParseInt(param).value - 1].originalUrl
      ensures r.LookupError? ==> r.error == NOT_FOUND
    {
      match ParseInt(param)
      case None => LookupError(NOT_FOUND)
      case Some(key) =>
        FindNumbered(urlDatabase, shortUrlCounter, key);
        match Find(urlDatabase, key)
        case None => LookupError(NOT_FOUND)
        case Some(entry) => Redirect(entry.originalUrl)
    }
  }

  /** What parseInt makes of the path parameters used in ExampleExchange. */
  lemma ParseIntOfOne()
    ensures ParseInt("1") == Some(1)
  {
    assert DecimalValue("1") == 1 by { assert "1"[..0] == []; }
    ParseIntDigitString("1");
  }

  lemma ParseIntOfOneAbc()
    ensures ParseInt("1abc") == Some(1)
  {
    assert DecimalValue("1") == 1 by { assert "1"[..0] == []; }
    assert "1" + "abc" == "1abc";
    ParseIntDecimalPrefix("1", "abc");
  }

  lemma ParseIntOfUnissued()
    ensures ParseInt("9999") == Some(9999)
  {
    assert DecimalValue("9999") == 9999 by {
      assert NumeralValue("9", 10) == 9 by { assert "9"[..0] == []; }
      assert NumeralValue("99", 10) == 99 by { assert "99"[..1] == "9"; }
      assert NumeralValue("999", 10) == 999 by { assert "999"[..2] == "99"; }
      assert NumeralValue("9999", 10) == 9999 by { assert "9999"[..3] == "999"; }
    }
    ParseIntDigitString("9999");
  }

  lemma ParseIntOfAbc()
    ensures ParseInt("abc") == None
  {
    ParseIntNoLeadingDigit("abc");
  }

  /**
   * An example exchange, from a fresh store: a disallowed scheme is refused and uses
   * up no id; the first accepted URL gets id 1 and GET of "1" redirects to it; GET of "1abc" does
   * too, because parseInt stops at the first non-digit; GET of an id never issued ("9999") and of a
   * parameter with no digits ("abc") report "short url not found".
   */
  method ExampleExchange(parse: UrlParser, resolves: HostResolver)
    returns (ftp: ShortenResponse, created: ShortenResponse,
             found: LookupResponse, lax: LookupResponse, unissued: LookupResponse, nan: LookupResponse)
    requires parse("ftp://example.com") == Some(UrlParts("ftp:", "example.com"))
    requires parse("https://www.freecodecamp.org") == Some(UrlParts("https:", "www.freecodecamp.org"))
    requires resolves("www.freecodecamp.org")
    ensures ftp == ShortenError(INVALID_URL)
    ensures created == Created("https://www.freecodecamp.org", 1)
    ensures found == Redirect("https://www.freecodecamp.org")
    ensures lax == Redirect("https://www.freecodecamp.org")
    ensures unissued == LookupError(NOT_FOUND)
    ensures nan == LookupError(NOT_FOUND)
  {
    var store := new UrlStore();
    assert !IsValidUrl(parse, "ftp://example.com");
    assert IsValidUrl(parse, "https://www.freecodecamp.org");
    ftp := store.Shorten(parse, resolves, "ftp://example.com");
    created := store.Shorten(parse, resolves, "https://www.freecodecamp.org");
    ParseIntOfOne();
    ParseIntOfOneAbc();
    ParseIntOfUnissued();
    ParseIntOfAbc();
    found := store.Lookup("1");
    lax := store.Lookup("1abc");
    unissued := store.Lookup("9999");
    nan := store.Lookup("abc");
  }
}
