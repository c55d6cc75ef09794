# tel: link checker — Dafny model

The repository is a Playwright test that crawls a web site, collects every
`tel:` anchor, and fails unless each anchor's number is written in one of
the accepted formats of the expected phone numbers. While the test runs,
requests to tracking scripts are aborted. This project models the logic
behind that test and proves properties of it:

- `js_strings.dfy` (module `JsStrings`) models the JavaScript `String`
  operations the code relies on: `startsWith`, `endsWith`, `includes`,
  `indexOf`, `replace` with a string pattern, `trim`, `slice`, `split`,
  `filter(Boolean)` and the `replace(/\D/g, '')` digit filter.
- `crawler.dfy` (module `Crawler`) models `tests/crawler.ts`:
  - `normalizeUrl` over an abstract URL parser and serialiser;
  - a `SiteCrawler` class that holds the `visitedUrls` set, the `telLinks`
    map and the map's insertion order;
  - `extractTelLinks` and the recursive `crawl`, written as methods with
    `modifies` clauses;
  - the loop over the internal links of a page;
  - `crawlSite`.

  The browser page is an abstract `Site`. It says which pages load, which
  `tel:` anchors a page shows and which resolved `href`s it contains.
- `tel_test.dfy` (module `TelTest`) models `tests/telTest.spec.ts`:
  - `generateAllowedFormats`;
  - the `validPhoneVariations` set;
  - the number taken out of an anchor's `href`;
  - the nested loops that collect the errors;
  - the verdict `errors.length == 0`.
- `blockers.dfy` (module `Blockers`) models the abort/continue decision in
  `tests/blockers.ts`.

The model follows the code as written. Two behaviours of the code are
easy to miss:

- **Normalisation is not idempotent.** It removes only one trailing slash,
  so a path such as `/a//` becomes `/a/` on the first pass and `/a` on the
  second. `Crawler.NormalizeIdempotentUnlessDoubleSlash` proves that
  normalising twice equals normalising once exactly when the parsed path
  does not end in `//`.
- **Only top-level mode crawls anything.** `crawlSite` seeds the traversal
  only when `topLevelOnly` is set. In full-site mode, and in homepage-only
  mode on its own, nothing is fetched and the map comes back empty. The
  test then records the single "no links" error, and `TelTest.TelLinkTest`
  proves that it always fails in those modes.

Three further points about the code:

- **A failure aborts the whole crawl.** No `try`/`catch` surrounds a
  navigation or the `new URL(link)` of a discovered link, so either
  failure ends the whole crawl and the test with it. The model returns
  that outcome as `ok == false` / `Failed`.
- **Links with a fragment are still followed.** There is no fragment
  filter on discovered links; the key simply drops the fragment.
- **Only the first `tel:` is removed.** `replace('tel:', '')` removes the
  first occurrence only, wherever it is.

## Model

| member | source | states |
|---|---|---|
| JsStrings.IncludesIffOccurs | tests/blockers.ts:16 | `includes` holds exactly when the substring occurs at some index of the URL |
| JsStrings.IncludesTransitive | tests/blockers.ts:12-13 | a string that contains `long` contains every substring of `long` |
| JsStrings.ReplaceFirst | tests/telTest.spec.ts:57 | when the string starts with the pattern, the result is the replacement followed by the rest |
| JsStrings.ReplaceFirstSpec | tests/telTest.spec.ts:57 | the first occurrence of the pattern, and only it, is replaced; a string without the pattern comes back unchanged |
| JsStrings.Trim | tests/telTest.spec.ts:57 | the result occurs in the input with only white space before and after it, and neither starts nor ends with white space |
| JsStrings.TrimUnchanged | tests/telTest.spec.ts:57 | a string that neither starts nor ends with white space is its own trim |
| JsStrings.Slice | tests/telTest.spec.ts:23 | `slice(start, end)` is the substring between the two when both are in range, the rest of the string from `start` when `end` is past the end, and empty when `start` is past the end or not before `end` |
| JsStrings.Split | tests/crawler.ts:67 | `split('/')` yields at least one part, and no part contains the separator |
| JsStrings.JoinSplit | tests/crawler.ts:67 | joining the parts of a split with the separator gives the string back |
| JsStrings.SplitJoin | tests/crawler.ts:67 | splitting a join of separator-free parts gives the parts back |
| JsStrings.SplitWithoutSeparator | tests/crawler.ts:67 | a string without the separator splits into itself alone |
| JsStrings.SplitAtSeparator | tests/crawler.ts:67 | the piece before the first separator comes off as the first part |
| JsStrings.SplitConcat | tests/crawler.ts:67 | cutting a string at one separator splits its parts there: the parts of `a/b` are those of `a` followed by those of `b` |
| JsStrings.NonEmpty | tests/crawler.ts:67 | every kept part is non-empty and one of the parts, and every non-empty part is kept |
| JsStrings.NonEmptySingle | tests/crawler.ts:67 | a single part is kept exactly when it is non-empty |
| JsStrings.NonEmptyConcat | tests/crawler.ts:67 | `filter(Boolean)` distributes over concatenation, so the kept parts keep their order and their repetitions |
| JsStrings.Digits | tests/telTest.spec.ts:15 | `replace(/\D/g, '')` never lengthens the string, keeps every digit of it and yields only digits taken from it |
| JsStrings.DigitsOfChar | tests/telTest.spec.ts:15 | a single character is kept exactly when it is a digit |
| JsStrings.DigitsConcat | tests/telTest.spec.ts:15 | the digit filter distributes over concatenation |
| JsStrings.DigitsOfDigits | tests/telTest.spec.ts:15 | a digit-only string is unchanged by the filter |
| Blockers.AnyIncludedIff | tests/blockers.ts:16 | `some(domain => url.includes(domain))` holds exactly when some listed string occurs in the URL |
| Blockers.Decide | tests/blockers.ts:16-21 | abort exactly when the URL contains one of the seven strings, continue exactly when it contains none |
| Blockers.CallRailEntryRedundant | tests/blockers.ts:12-13 | every URL containing `js.callrail.com` contains `callrail.com`, so the first six entries decide alone |
| Blockers.QueryStringIsSearched | tests/blockers.ts:16 | `analytics.js` in a query string still aborts the request |
| Blockers.NotIncludedWithoutLowerCase | tests/blockers.ts:16 | a string starting with a lower-case letter is not found in a URL without lower-case letters |
| Blockers.MatchingIsCaseSensitive | tests/blockers.ts:16 | a URL without lower-case letters is never aborted |
| Crawler.StripTrailingSlash | tests/crawler.ts:16-18 | a non-root path ending in `/` loses exactly that one slash; any other path is kept |
| Crawler.Normalize | tests/crawler.ts:12-23 | a string that does not parse is its own key |
| Crawler.NormalizedKey | tests/crawler.ts:14-19 | read back through the parser, the key has no fragment, the same prefix and query, and the path with at most one trailing slash removed |
| Crawler.TrailingSlashAndFragmentIgnored | tests/crawler.ts:15-17 | `…/about/`, `…/about` and `…/about#x` have the same key |
| Crawler.NormalizeIdempotentUnlessDoubleSlash | tests/crawler.ts:15-19 | normalising twice equals normalising once exactly when the parsed path does not end in `//` |
| Crawler.StripTwice | tests/crawler.ts:16-17 | removing a trailing slash a second time changes the path exactly when it ended in `//` |
| Crawler.PathSegments | tests/crawler.ts:67 | every segment is non-empty and contains no `/` |
| Crawler.PathSegmentsConcat | tests/crawler.ts:67 | the segments of `a/b` are the segments of `a` followed by those of `b` |
| Crawler.PathSegmentsOfPiece | tests/crawler.ts:67 | a piece without `/` is one segment, or none when it is empty |
| Crawler.RootHasNoSegments | tests/crawler.ts:67 | `/` has no segment |
| Crawler.FirstLevelSegments | tests/crawler.ts:67-72 | `/x` and `/x/` both have the single segment `x`, so top-level mode follows them |
| Crawler.SecondLevelSegments | tests/crawler.ts:67-72 | `/a/b` has two segments, so top-level mode skips it |
| Crawler.InternalLinks | tests/crawler.ts:56-63 | a link is kept exactly when it is on the page and starts with the base URL as a string |
| Crawler.InternalLinksSingle | tests/crawler.ts:60-61 | one `href` is kept exactly when it starts with the base URL |
| Crawler.InternalLinksConcat | tests/crawler.ts:59-61 | the filter distributes over concatenation, so the kept links keep their document order and their repetitions |
| Crawler.WithAnchorsMembers | tests/crawler.ts:38-40 | a key is among the keys stored in the map exactly when it was checked, its page loaded and it shows a `tel:` anchor |
| Crawler.WithAnchorsAppend | tests/crawler.ts:38-40 | checking one more page appends its key to the map's keys exactly when the page loaded and has anchors |
| Crawler.LogAppend | tests/crawler.ts:47-51 | checking a key not yet visited, reached from the base URL or a followed link of an earlier page, keeps every key checked once, the visited set equal to the checked keys, and each key tied to the page it was found on |
| Crawler.OrderAppend | tests/crawler.ts:38-40 | a key not yet in the map goes to the end of the map's insertion order exactly when its page loaded and has anchors, and the keys stay unique |
| Crawler.AdmitStep | tests/crawler.ts:47-51 | the record, the map and its order all hold for the state after one admission |
| Crawler.LinkedKeyInUniverse | tests/crawler.ts:66-74 | the key of the base URL or of a followed link of a checked page is in the closed set of keys |
| Crawler.CrawlTrace | tests/crawler.ts:46-76 | a traversal only appends keys to those checked before it, all within the closed set of keys; `Crawl`, `Visit`, `FollowLinks` and `FollowLink` are proved equal to it and to `VisitTrace`, `LinksTrace` and `LinkTrace` |
| Crawler.SiteCrawler.constructor | tests/crawler.ts:9-10 | the crawl starts with an empty visited set and an empty map |
| Crawler.SiteCrawler.ExtractTelLinks | tests/crawler.ts:25-44 | the page is loaded; its anchors are stored under the key only when it loaded and has at least one; otherwise the map is unchanged |
| Crawler.SiteCrawler.Admit | tests/crawler.ts:47-51 | the key is inserted into `visitedUrls` and then checked, exactly once; its anchors go under it and it goes to the end of the map's order exactly when its page loaded and has some; the record of where each key was found on is kept |
| Crawler.SiteCrawler.Crawl | tests/crawler.ts:46-53 | the keys checked, in order, and the outcome are exactly those of `CrawlTrace`; a visited key changes nothing; otherwise its key is checked next; homepage-only mode checks at most that page; on success every new page loaded and had its followed links visited; on failure a new page failed |
| Crawler.SiteCrawler.Visit | tests/crawler.ts:49-76 | the keys checked and the outcome are exactly those of `VisitTrace`: the page is checked, a page that does not load fails, homepage-only mode stops there, and otherwise its internal links are followed in document order |
| Crawler.SiteCrawler.FollowLinks | tests/crawler.ts:65-75 | the keys checked and the outcome are exactly those of `LinksTrace`: the links are handled one after the other in document order until one fails; on success each one parses and each followed one has its key visited |
| Crawler.SiteCrawler.FollowLink | tests/crawler.ts:66-74 | the keys checked and the outcome are exactly those of `LinkTrace`; an unparsable link fails the crawl and a link skipped in top-level mode succeeds, and neither changes the visited set, the map or its order; any other link is crawled |
| Crawler.CrawlSite | tests/crawler.ts:78-83 | without top-level mode: an empty map and no page checked; with it the keys checked and the outcome are exactly those of `CrawlTrace` from the base URL, whose key is checked first; homepage-only checks at most one page; each key is checked once and is the key of the base URL or of a followed link on a page checked before it; a returned map's keys are, in checking order, the checked pages that have anchors, each holding all of them; on success every checked page loaded and every followed link of it was checked; a failure names a checked page that failed |
| Crawler.KeysReached | tests/crawler.ts:66-74 | every checked key but the base URL's is the key of a followed link on a page checked before it |
| Crawler.MapOfRecord | tests/crawler.ts:38-40 | read off a complete record, the map's keys are the checked keys with anchors in checking order, each holding exactly its page's anchors |
| TelTest.Groups | tests/telTest.spec.ts:23-24 | three groups, the first two at most three long, and for any digit string exactly `slice(1, 4)`, `slice(4, 7)` and `slice(7)` clamped to its length |
| TelTest.GroupsCoverDigits | tests/telTest.spec.ts:23-24 | the three groups run together are the digits after the leading `1` |
| TelTest.DigitsOfDashed | tests/telTest.spec.ts:23-24 | removing the dashes from dash-joined digit groups gives the groups run together |
| TelTest.FormatsKeepDigits | tests/telTest.spec.ts:21-24 | each of the three formats has exactly the digit string as its digits |
| TelTest.GenerateAllowedFormats | tests/telTest.spec.ts:14-26 | empty exactly when the digits do not start with `1`; otherwise three formats, each with exactly the input's digits |
| TelTest.FormatsDependOnDigitsOnly | tests/telTest.spec.ts:15 | the formats of a number equal the formats of its digit string |
| TelTest.PunctuatedNumberAgreesWithDigits | tests/telTest.spec.ts:15 | `+1 (NNN) XXX-YYYY` has the same formats as `1NNNXXXYYYY` |
| TelTest.FormatsReadBack | tests/telTest.spec.ts:21-25 | the first format is `+` and the digits; the second is `+` and the third; the third splits at its dashes into `1` and the three groups |
| TelTest.FormatsDistinct | tests/telTest.spec.ts:21-25 | the three formats are different strings |
| TelTest.FlattenContains | tests/telTest.spec.ts:48 | a string is in the `flatMap` result exactly when it is in one of the lists |
| TelTest.AllowedVariations | tests/telTest.spec.ts:47-49 | a string is accepted exactly when it is a format of one of the expected numbers |
| TelTest.AllowedHaveExpectedDigits | tests/telTest.spec.ts:47-49 | every accepted string has the digits of an expected number, and those digits start with `1` |
| TelTest.ExtractNumber | tests/telTest.spec.ts:57 | the extracted number neither starts nor ends with white space |
| TelTest.TelPrefixRemoved | tests/telTest.spec.ts:57 | `tel:` followed by a number without surrounding white space yields that number |
| TelTest.OnlyFirstTelRemoved | tests/telTest.spec.ts:57 | `tel:tel:N` yields `tel:N`: only the first `tel:` is removed |
| TelTest.FormatStart | tests/telTest.spec.ts:21-25 | every format starts with `+` or `1` |
| TelTest.DashedGroupsEnd | tests/telTest.spec.ts:23-24 | the groups of a digit string, joined with dashes, end in a digit or a dash |
| TelTest.FormatEnd | tests/telTest.spec.ts:21-25 | every format is non-empty and ends in a digit or a dash |
| TelTest.AllowedFormatsExtractIntact | tests/telTest.spec.ts:57 | every accepted format written after `tel:` is extracted unchanged |
| TelTest.ValidateTelLinks | tests/telTest.spec.ts:52-74 | the errors are those of each page in map order, and within a page of each anchor in document order; a map with no entry gives the single "no links" error |
| TelTest.ValidatePage | tests/telTest.spec.ts:55-69 | the errors of one page are appended after the errors already recorded |
| TelTest.PageErrorsAreRejections | tests/telTest.spec.ts:55-68 | a page's errors are exactly its anchors whose number is not accepted |
| TelTest.MapErrorsAreRejections | tests/telTest.spec.ts:53-70 | the errors are exactly the rejected anchors of the visited pages, each with its page |
| TelTest.OneErrorPerRejection | tests/telTest.spec.ts:55-68 | a page contributes exactly one error per rejected anchor, duplicates included |
| TelTest.ErrorsEmptyIff | tests/telTest.spec.ts:52-77 | no error exactly when the map has an entry and every anchor is accepted; an empty map gives exactly the "no links" error |
| TelTest.TelLinkTest | tests/telTest.spec.ts:43-77 | the pages checked are exactly those of `crawl(baseUrl)` (`CrawlTrace`) in top-level mode and none otherwise; the test passes exactly when top-level mode is on, no checked page failed, some checked page has a `tel:` anchor and every such anchor's number is accepted; so outside top-level mode it always fails |

## Left out

- The Playwright browser is left out: the context, `page.goto`, `$$eval`,
  `page.route`, `route.abort` and `route.continue`. These are calls into
  the browser. Pages, anchors and hrefs are the abstract `Site`, and the
  routing hook is reduced to its decision.
- WHATWG URL parsing and serialisation are abstract (`UrlSyntax`). Host
  lower-casing, percent-encoding, default ports and resolving an anchor's
  `href` against the page are not modelled.
- The lemmas about the key assume that serialising and parsing round-trip
  (`RoundTrips`).
- In top-level mode the crawl assumes a finite set of keys that contains
  the base URL's key and, unless only the homepage is checked, is closed
  under following the links that are followed (`Closed`). This is the
  termination argument; the source has no such bound. The other modes
  crawl nothing and need no such set.
- `textContent` extraction is not modelled; an anchor's text is carried
  along as given.
- Reading `process.env` is not modelled: the expected numbers, the base
  URL and the two flags are parameters. The user-agent setting is also
  left out.
- The log and error message text is not modelled. Each error is a value
  naming the page and the anchor, and the `expect` call is the boolean
  verdict.
- `async`/`await` is not modelled. Every await is sequential, so the
  crawl is modelled as plain sequential code.
- UTF-16 surrogate pairs are treated as single characters. The `$`
  replacement patterns of `String.prototype.replace` are not interpreted;
  the code passes an empty replacement.
- TelTest.ValidateTelLinks takes the number-extraction function as a
  parameter; the test passes `ExtractNumber`. Its contract holds for any
  extraction function, so it does not depend on the details of `replace`
  and `trim`.
