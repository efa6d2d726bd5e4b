# URL shortener and timestamp microservices, modelled in Dafny

This project models two small Express services.

**The URL shortener** (`boilerplate-urlshortener/index.js`) keeps two things in memory: a table `urlDatabase` of `{original_url, short_url}` entries, which only grows, and a counter `shortUrlCounter`, which starts at 1.
- `POST /api/shorturl` first checks the submitted string with `isValidUrl`: the string must parse as a URL whose protocol is `http:` or `https:`. It then asks DNS about the host name. Only when both checks pass does it take the counter's value as the new id, increment the counter and append the entry. In every other case it answers `{error: 'invalid url'}`.
- `GET /api/shorturl/:short_url` runs the path parameter through `parseInt`. It redirects to the first entry whose id matches, or answers `{error: 'short url not found'}`.

**The timestamp service** (`boilerplate-timestamp/index.js`, `GET /api/:date?`) picks one of three branches:
- a missing or empty parameter reports the current time;
- a parameter made only of decimal digits is read with `parseInt` as a number of milliseconds;
- any other parameter goes to the Date string parser.

A NaN time value gives `{error: "Invalid Date"}`. Any other value gives `unix` and `utc`, both taken from that one value.

The project has four modules:
- `Wrappers` (`wrappers.dfy`) holds the `Option` type.
- `JsNumbers` (`js_numbers.dfy`) is JavaScript's `parseInt` with no radix, as ECMA-262 defines it. It skips leading white space, reads one sign, switches to radix 16 on a `0x`/`0X` prefix, and converts the longest prefix of digits. A string with no digits gives NaN, written `None`. Both services call it.
- `UrlShortener` (`url_shortener.dfy`) is the store. It is a class `UrlStore` with the fields `urlDatabase: seq<Entry>` and `shortUrlCounter: nat`. Its invariant `Valid()` is `Numbered`: the ids are 1..n in insertion order and the counter is n + 1. The method `Shorten` is the POST handler. The read-only function `Lookup` is the GET handler, built on `Find`, which models `Array.prototype.find`.
- `Timestamp` (`timestamp.dfy`) is the handler as the pure function `Respond`, with the branch classification `Classify` and the range check `TimeClip` of the Date constructor.

Some behaviour is outside the model and enters as parameters:
- the WHATWG `URL` constructor is the parameter `parse`, which returns `None` where the constructor throws;
- `dns.lookup` is the parameter `resolves`, a per-request answer to "did this host name resolve";
- the clock is `now`;
- the Date string parser is `parseDate`, which returns `None` for NaN;
- `toUTCString` is `utcString`.

The lemmas and examples show two consequences of `parseInt`:
- a GET of `1abc` redirects to entry 1, because `parseInt` stops at the first non-digit;
- on the timestamp service, `2015` means 2015 ms after the epoch, not the year 2015.

## Model

| member | source | states |
|---|---|---|
| `UrlShortener.UrlStore.constructor` | boilerplate-urlshortener/index.js:29-30 | The store starts with an empty table and the counter at 1, and the invariant holds. |
| `UrlShortener.NumberedInitially` | boilerplate-urlshortener/index.js:29-30 | The empty table with counter 1 satisfies the invariant. |
| `UrlShortener.NumberedAppend` | boilerplate-urlshortener/index.js:62-63 | Appending an entry that carries the current counter, then adding 1 to the counter, keeps the invariant. |
| `UrlShortener.NumberedIncreasing` | boilerplate-urlshortener/index.js:62-63 | Under the invariant, an entry added earlier has a smaller id than any entry added later, so ids are unique. |
| `UrlShortener.NumberedIdsBounded` | boilerplate-urlshortener/index.js:62-63 | Under the invariant, every id in the table, even in a one-entry table, is between 1 and counter - 1. |
| `UrlShortener.IsValidUrl` | boilerplate-urlshortener/index.js:33-41 | A string the URL parser rejects (the constructor throws) is invalid. A parsed string is valid exactly when its protocol is `http:` or `https:`. |
| `UrlShortener.UrlStore.Shorten` | boilerplate-urlshortener/index.js:33-74 | An entry is created exactly when `IsValidUrl` holds and the parsed host name resolves. A created response echoes the submitted string and, as the id, returns the counter's value from before the call. The table gains exactly that one entry at its end and the counter grows by 1. Any other outcome is `invalid url` with the table and counter unchanged. The invariant is preserved. GET of the returned id written in decimal then redirects to the submitted URL. |
| `UrlShortener.Find` | boilerplate-urlshortener/index.js:80 | The result is `None` exactly when no entry carries the key. Otherwise it is the entry at the first position carrying the key. |
| `UrlShortener.FindNumbered` | boilerplate-urlshortener/index.js:80 | Under the invariant, the first match for key k is the entry at position k - 1, and no other entry carries k. A key outside 1..counter-1 finds nothing. |
| `UrlShortener.UrlStore.Lookup` | boilerplate-urlshortener/index.js:77-88 | The response redirects exactly when `parseInt` of the parameter is a number with 0 < k < counter. It redirects to the URL stored k-th. Otherwise, NaN included, it is `short url not found`. It reads the store and changes nothing. |
| `UrlShortener.ExampleExchange` | boilerplate-urlshortener/index.js:44-88 | This plays an example exchange on a fresh store. `ftp://example.com` is refused and uses no id. `https://www.freecodecamp.org` gets id 1. GET `1` and GET `1abc` redirect to it. GET `9999` and GET `abc` are `short url not found`. |
| `JsNumbers.ParseInt` | boilerplate-urlshortener/index.js:78 | `parseInt` with no radix, as called here and at boilerplate-timestamp/index.js:48: leading JavaScript white space is skipped, one sign is read, `0x`/`0X` switches to radix 16, and the longest digit prefix is converted; no digits is NaN. Its contract: blank text is NaN, text starting with a digit never gives a negative number, and a negative result needs a leading minus sign. The lemmas below give its exact value on decimal input. |
| `JsNumbers.ParseIntDecimalPrefix` | boilerplate-urlshortener/index.js:78 | `parseInt` of a run of decimal digits followed by a non-digit (or by nothing) is the run's decimal value. The one exception is a lone `0` followed by `x`/`X`. |
| `JsNumbers.ParseIntNoLeadingDigit` | boilerplate-urlshortener/index.js:78 | A parameter that starts with no white space, no sign and no digit is NaN. |
| `JsNumbers.ParseIntDecimalString` | boilerplate-urlshortener/index.js:78 | Writing an id in decimal and reading it back with `parseInt` gives the id (the round trip that GET relies on). |
| `JsNumbers.DecimalStringValue` | boilerplate-urlshortener/index.js:78 | The decimal numeral of n has decimal value n. |
| `JsNumbers.ParseIntDigitString` | boilerplate-timestamp/index.js:47-48 | `parseInt` of a string of decimal digits is its decimal value. |
| `JsNumbers.NumeralValueBound` | boilerplate-timestamp/index.js:47-48 | A numeral of d digits in radix b has a value below b^d. |
| `Timestamp.Classify` | boilerplate-timestamp/index.js:34-51 | The current-time branch is taken exactly for a missing or empty parameter. The millisecond branch gets only non-empty strings of decimal digits. The string-parser branch gets only parameters holding some character that is not a decimal digit. |
| `Timestamp.TimeClip` | boilerplate-timestamp/index.js:48-50 | The Date constructor's range check: a time value survives exactly when it is a number within ±8.64e15 ms, and then unchanged; anything else is NaN. |
| `Timestamp.Report` | boilerplate-timestamp/index.js:56-66 | The response is `Invalid Date` exactly when the time value is NaN. Otherwise `unix` is that value and `utc` is the formatting of the same value. |
| `Timestamp.Respond` | boilerplate-timestamp/index.js:26-68 | A missing or empty parameter reports `now`. A digit string reports its decimal value as `unix` when that value is within ±8.64e15 ms, and `Invalid Date` otherwise; the string parser is not consulted. Any other parameter reports the range-checked result of the string parser, with `Invalid Date` on NaN. On success, `utc` is the formatting of the same value as `unix`. An error response is exactly `Invalid Date` and never comes from the current-time branch. |
| `Timestamp.NonDigitGoesToParser` | boilerplate-timestamp/index.js:47-51 | A parameter that contains a character other than a decimal digit is classified for the Date string parser. |
| `Timestamp.ShortDigitStringIsValid` | boilerplate-timestamp/index.js:47-58 | Every digit string of at most 15 digits gives a valid date whose `unix` is its decimal value. |
| `Timestamp.YearIsMilliseconds` | boilerplate-timestamp/index.js:47-48 | `2015` gives `unix: 2015`, whatever the string parser would make of it. |
| `Timestamp.DocumentedTimestamp` | boilerplate-timestamp/index.js:89-90 | `/api/1451001600000` gives `unix: 1451001600000`, with `utc` the formatting of that value. |

## Left out

- The WHATWG `URL` parser (boilerplate-urlshortener/index.js:35, 54) is a library, so it is the parameter `parse`. There is no separate "missing host" check, because the code has none.
- Line 54 calls `new URL` a second time, and its `catch` (71-73) can never run: the same string already parsed at line 35. The model parses once.
- `dns.lookup` (line 56) is asynchronous network I/O, so it is the per-request parameter `resolves`. Callback interleaving is left out. Node's single event loop makes `shortUrlCounter++` atomic; the model takes each shorten as one step, and ids follow the order in which callbacks complete.
- A missing or non-string `url` body field is not modelled separately. The model takes the string that `new URL` would see, which for a missing field is `"undefined"`, and the URL parser rejects it.
- `JsNumbers.ParseInt`: does not model how JavaScript numbers round above 2^53. Such a value would matter only once the store holds 2^53 entries or more. For the timestamp service, every such value is beyond the Date range anyway.
- `UrlShortener.UrlStore.Shorten`: the counter is an unbounded `nat`, while JavaScript's `++` on a Number is exact only up to 2^53.
- Date string parsing, `toUTCString` and `new Date()` (boilerplate-timestamp/index.js:35-38, 50, 65) are library and clock behaviour, so they are the parameters `parseDate`, `utcString` and `now`. `parseDate` gives whole milliseconds, so the rounding step of TimeClip is not modelled.
- The implicit global `date` at boilerplate-timestamp/index.js:48 is not modelled as state; it is overwritten before every use.
- HTTP plumbing is left out: `res.json`, the status code of `res.redirect`, static files, CORS, body parsing, Express's decoding of path parameters, and `app.listen`. The models take the decoded parameter; a route without its optional parameter is `None`.
- The exercise tracker, the Mongoose exercises, the Express exercises, the file metadata service and the header parser are not part of this model. They have no logic beyond database queries, library fields and string concatenation.
