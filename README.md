# Carousell listing notifier — a Dafny model of its core

The notifier searches the Carousell marketplace (Philippines) for recent
men's-fashion listings of a few configured brands and posts each new listing to
a Telegram channel, remembering the ids it has already delivered so that no
listing is posted twice. This project models the logic of that pipeline:

- `search.py` — the listing record and its canonical URL, the recency filter,
  the immutable search builder (`filter`, `_copy_with`) and the request body it
  produces (`json`), and the loop in `execute` that turns the response's
  listing cards into listings.
- `listing.py` — the scraped listing: validation, the message renderer with its
  title and description truncation, and the cached, retried look-up of the
  listing's photo on its page.
- `main.py` — the older message renderer used by the bot, and the delivery loop
  of `run_script`: the seen-set check, the dry-run switch, the choice of photo
  or text message, and recording an id only after a successful send.

Modules: `Wrappers` (Option/Result/Outcome), `Seqs` (subsequence order), `Text`
(Python's `str.strip`, `str.title`, line joining and title truncation),
`Search`, `Extract` (the card-decoding loop of `execute`), `Listing` and `Bot`.

Points where the model follows the code as written:

- In `execute`, a below-fold component whose name is not `header_1`,
  `header_2` or `paragraph` leaves the previous key in place. Its content is
  then stored under the previous component's key. That key carries over from
  one listing card to the next, because `key` is a local of the whole method.
  When no key has been bound yet, Python raises `UnboundLocalError`, which the
  model returns as `Failure(UnboundKey)`. `Extract.KeyCarriesAcrossCards` shows
  a badge in the second card becoming that listing's title.
- A missing `time_created` component, or one without `seconds.low`, gives the
  listing the current time as its creation time. It is not treated as "age
  unknown".
- `main.py`'s description rule is inverted: a non-empty description is used
  whole, whatever its length, and an empty one becomes `"..."`.
- `main.py` reads both its title limit and its description limit from the
  *title* setting. The model passes the title limit for both.
- `main.py` renders a missing price as the text `None`. `listing.py` renders
  it as "No price indicated".
- Title truncation strips whitespace on both sides of the cut prefix, as
  `str.strip` does.

## Model

| member | source | states |
|---|---|---|
| Text.Strip | listing.py:72 | the result is a contiguous slice of the input; everything cut off on either side is whitespace, and a non-empty result neither starts nor ends with whitespace |
| Text.StripIdempotent | listing.py:75 | stripping a stripped string changes nothing |
| Text.TitleCase | listing.py:78 | each character is upper-cased when it follows an uncased character (or starts the string) and lower-cased when it follows a cased one, with the length kept |
| Text.TitleCaseIdempotent | main.py:35 | title-casing a title-cased string changes nothing |
| Text.SplitJoinLines | listing.py:73 | joining newline-free fragments with "\n" loses nothing: splitting at the newlines gives the fragments back |
| Text.JoinLines | listing.py:73 | the empty list joins to ""; otherwise the result starts with the first fragment, and fragments that hold no newline give exactly `len(xs) - 1` newlines; that those newlines sit between consecutive fragments is `Text.SplitJoinLines` |
| Text.ShortTitle | main.py:33 | a title shorter than the limit is kept unchanged; a longer one becomes the stripped prefix of `limit` characters followed by "...", so it is never longer than limit + 3 |
| Search.Url | search.py:41-43 | the URL is the Carousell host, then "/p/", then the listing id, with the exact length of the three |
| Search.UrlDeterminesId | search.py:41-43 | two listings have the same URL exactly when they have the same id |
| Search.FilterRecent | search.py:60-71 | a listing is kept exactly when it is no older than the allowed age, and the result is no longer than the input |
| Search.FilterRecentIsSubsequence | search.py:67-71 | the kept listings appear in their original order (a subsequence of the input) |
| Search.FilterRecentAppend | search.py:67-71 | filtering a concatenation is the concatenation of the filtered parts |
| Search.FilterRecentIdempotent | search.py:67-71 | filtering twice with the same age and clock is filtering once |
| Search.Reduce | search.py:85 | an enum member is stored as its value, and a plain value as itself |
| Search.AppendFilter | search.py:82-85 | appending a value to a key creates the key at the end of the key order when missing, appends the reduced value (an enum member becomes its value) to that key's list, and leaves every other key's list unchanged |
| Search.AppendFilters | search.py:81-85 | appending all keyword arguments keeps the filter map well formed; the old keys keep their order at the front, and at most one new key is added per argument |
| Search.AppendFiltersEffect | search.py:80-86 | after all keyword arguments, each key's list is its old list followed by the values given for it, in order; untouched keys keep their lists, and the old key order is a prefix of the new one |
| Search.NewSearch | search.py:75-78 | a new search has the given term, a count of 20 and no filters |
| Search.CopyWith | search.py:88-91 | each field given to the copy overrides the original's, and every field not given is copied unchanged |
| Search.Filter | search.py:80-86 | returns a new search with the same term and count whose filters are the old ones with every keyword argument appended, as the specification function states |
| Search.Json | search.py:93-110 | the request body carries the term and count, one filter entry per key in key order with that key's values, and the fixed country "1694008", locale "en", free-items false and newest-first sorting on "time_created"; it is the body `RequestBody` describes |
| Search.BrandSearchFilters | main.py:47 | the brand search's filter map holds only `collections`, with the list ["3"] (all men's fashion); the request sent for a brand queries that brand, asks for 20 results, and carries exactly that one filter entry |
| Search.BrandSearch | main.py:47 | the search built for a brand has the brand as its term, 20 as its count, and a filter map whose only key is `collections`, holding ["3"] (all men's fashion) |
| Search.BrandRequest | search.py:118 | the body `execute` posts for a brand's search queries that brand and asks for 20 results; its single filter entry is stated by `Search.BrandSearchFilters` |
| Extract.CreatedAt | search.py:121-128 | the time is the `seconds.low` of the first `time_created` component, or the current time when that component or its seconds are missing |
| Extract.PhotoOf | search.py:151-152 | a card without media has no photo; otherwise the photo is the first media entry's URL |
| Extract.ScanBelowFold | search.py:134-150 | once a key is bound, decoding the components cannot fail and leaves a key bound; the others list never holds more entries than there are components |
| Extract.ScanFailsIff | search.py:134-150 | decoding a card's components fails exactly when no key is bound yet and the first component has an unknown name; after success the key is unbound only if it was unbound and there were no components |
| Extract.ScanKnownNames | search.py:134-150 | with only known names, the title is the last `header_1`, the price the last `header_2`, the description the first `paragraph`, and the others are the later non-empty paragraphs in order |
| Extract.ExtractCard | search.py:120-153 | decoding one card gives the listing (id, creation time, fields, first photo URL) and the key left bound, or the unbound-key failure, as the specification function states |
| Extract.ExtractSpec | search.py:120-153 | decoding a card fails exactly when no key is bound and its first component has an unknown name; a decoded listing takes its id, creation time and photo from the card, and has at most one other-paragraph per component |
| Extract.Execute | search.py:115-154 | the loop over the cards succeeds exactly when the specification does, and then returns its listings, one per card in order |
| Extract.ExecuteFrom | search.py:117-153 | a successful decode has one listing per card, in card order, each with its card's id and photo |
| Extract.ExecuteFailsIff | search.py:134-143 | the whole response fails to decode exactly when some card starts with an unknown component name and every card before it has no components |
| Extract.ExecuteKeyUnbound | search.py:129-153 | a successful decode yields one listing per card, and leaves the key unbound exactly when no card had any component |
| Extract.ExtractIgnoresKey | search.py:134-150 | a card whose component names are all known decodes to the same listing whatever key the previous card left bound |
| Extract.ExecuteKnownNames | search.py:115-154 | when every component name is known, decoding succeeds and each listing is its own card decoded alone |
| Extract.KeyCarriesAcrossCards | search.py:134-150 | an unknown component in a later card is stored under the key bound by the previous card: a badge becomes the title |
| Listing.Validate | listing.py:41-45 | validation fails with TitleRequired exactly when the title is falsy, fails with UrlRequired exactly when the title is truthy and the URL falsy, and passes otherwise |
| Listing.ShortDescription | listing.py:73-75 | a description up to the limit is kept; a longer one becomes the stripped prefix of `limit` characters plus "...", never longer than limit + 3 |
| Listing.OrPlaceholder | listing.py:79-80 | a truthy value is printed as it is, and a falsy one is replaced by its placeholder |
| Listing.Layout | listing.py:77-81 | the message is the five lines (an empty one, the anchor, the price line, the size line, the emphasised description) joined with newlines |
| Listing.LayoutLines | listing.py:77-81 | when no field holds a newline, splitting the message at its newlines gives back exactly those five lines |
| Listing.GenerateMessage | listing.py:70-81 | fails exactly when validation fails, with the same error; otherwise it is the anchor to the URL with the short, title-cased title, then the price or its placeholder, the size or its placeholder, and the joined and shortened description in italics |
| Listing.MessageLengthBound | listing.py:70-81 | a rendered message is at most a fixed overhead longer than the URL, the short title, the price and size lines and the shortened description |
| Listing.MissingPriceScenario | listing.py:79-80 | a listing without a price or size shows "No price indicated" and "No size indicated" |
| Listing.LongTitleScenario | listing.py:72 | a 53-character title is cut to its first 30 characters, stripped, followed by "..." |
| Listing.MatchingImages | listing.py:59 | an image is found exactly when its title equals the listing's title |
| Listing.LastMatch | listing.py:65 | the photo is the `src` of the last image whose title matches, or nothing when none matches |
| Listing.LastOfMatchingIsLastMatch | listing.py:59-65 | taking the last of the matching images is the same as searching for the last match |
| Listing.FirstPage | listing.py:55-63 | the retry loop ends with the page of the first request, among the allowed attempts, that did not fail, or with no page when every attempt failed |
| Listing.AttemptsMade | listing.py:55-63 | the loop makes at most the allowed number of requests; every request before the last one made failed, and when it stops early the last request returned a page |
| Listing.ResolvePhoto | listing.py:54-65 | a resolved photo is the `src` of an image, with the listing's title, on a fetched page |
| Listing.ResolvePhotoIsLastMatch | listing.py:55-65 | the resolved photo is the last match on the first page fetched |
| Listing.ResolvePhotoOfLastMatch | listing.py:55-65 | conversely, when attempt i is the first to load a page and image k is the last on it with the listing's title, the photo is that image's `src` |
| Listing.ResolvePhotoNone | listing.py:55-65 | no photo is resolved when every request fails, or when the first page that loads has no image with the listing's title |
| Listing.CarousellListing.constructor | listing.py:33-38 | the new listing holds the given fields and has no photo cached |
| Listing.CarousellListing.PhotoUrl | listing.py:48-67 | a truthy cached photo is returned without a request; otherwise validation runs first, and on success the cache becomes the photo resolved within at most two requests and is returned |
| Listing.FirstPageStable | listing.py:55-63 | once a request has succeeded, allowing more attempts does not change the page found |
| Bot.MainDescription | main.py:34 | a non-empty description is used unchanged, and an empty one becomes "..." |
| Bot.PriceText | main.py:36 | a price is printed as it is, and a missing one as Python prints None, "None" |
| Bot.OthersBlock | main.py:37-39 | the others line is absent exactly when there are no other paragraphs; otherwise it is a newline followed by the paragraphs joined with newlines |
| Bot.GenerateMessage | main.py:31-41 | fails exactly when the title or description is None (the title is checked first); otherwise the anchor with the short, title-cased title, the price, the other paragraphs when there are any, and the description in italics |
| Bot.DescriptionNeverTruncated | main.py:34-40 | whatever the limit, a non-empty description ends the message whole |
| Bot.GateStep | main.py:52-80 | one listing is sent exactly when the run has not crashed, its id is unseen, it is not a dry run and it renders; the send is a photo exactly when the listing has a truthy photo URL; the id becomes seen only when the send succeeds; an unrenderable listing ends the run |
| Bot.StepSendsMessage | main.py:62-74 | what is sent is the rendered message: as the caption of the listing's photo URL when that URL is truthy, and as a text message otherwise |
| Bot.Gate | main.py:52-80 | once the run has crashed, the rest of the listings change nothing |
| Bot.GateAppends | main.py:52-58 | the delivery loop only appends to the send log, and a dry run or a crashed run is left as it was |
| Bot.GateSeen | main.py:53-77 | no send is for an id already seen, and the seen-set grows by exactly the ids delivered |
| Bot.GateInOrder | main.py:52-80 | the sends follow the order of the listings |
| Bot.StepConsistent | main.py:53-77 | one pass keeps every delivered id in the seen-set and sends no id again after it was delivered |
| Bot.GateConsistent | main.py:52-80 | the whole loop keeps the run consistent: no listing is delivered twice |
| Bot.GateCrashedStays | main.py:59 | once rendering has raised, the rest of the listings change nothing |
| Bot.DeliverListings | main.py:52-80 | the loop over one brand's listings yields exactly the state the specification function gives |
| Bot.GateKeepsRunInvariant | main.py:46-80 | each brand's loop keeps the run invariant: seen-set = initial set plus the delivered ids, no send for an initially seen id, consistency, and nothing sent in a dry run |
| Bot.BrandStep | main.py:47-80 | one brand of the run: its log only extends the log before it, a dry run leaves seen-set and log as they were, and it ends crashed exactly when the brand's cards fail to decode or the delivery loop over its recent listings crashed |
| Bot.RunSpec | main.py:44-80 | the run over the brands in the order searched, stopping at the first crash; a dry run sends and records nothing (the run invariant and the crash rule are `Bot.RunSpecInvariant` and `Bot.RunSpecCrashedStays`) |
| Bot.RunSpecInvariant | main.py:44-80 | the whole run keeps the run invariant: seen-set = initial set plus the delivered ids, no send for an initially seen id, no id delivered twice, nothing sent in a dry run |
| Bot.RunSpecCrashedStays | main.py:46-59 | once the run has crashed, whether a brand's search failed to decode or rendering a message raised, the remaining brands change nothing |
| Bot.RunScript | main.py:44-80 | the run is the one the specification function describes: for each brand in order, the brand request is fetched, its cards extracted (a failure ends the run), the listings at most the recency bound old kept, and passed through the delivery loop; hence the seen-set is the initial set plus exactly the delivered ids, nothing was sent for an id already seen, no id was delivered twice, and a dry run sends and records nothing |


## Left out

- HTTP requests, JSON decoding of the search response, HTML parsing of the listing page, the Telegram bot and the YAML configuration are not modelled. Search results are a function from request bodies to decoded listing cards, page fetches a function from attempt number to page or failure, and send outcomes a function from send number to outcome.
- The Redis store is the set `seen`. The expiry (TTL) of its entries is not modelled, so an id stays seen for the whole run.
- `random.sample(BRANDS, 3)` is not modelled: the brands are given in the order they are searched.
- The clock is a parameter. `filter_recent` calls `datetime.now()` once per listing, whereas the model uses one `now` for the whole call. `datetime.fromtimestamp` (local time, sub-second parts) is modelled as whole seconds.
- `Extract.CreatedAt` reads only the `low` half of the timestamp, as the source does; the protobuf `high` word is not modelled.
- `Text.Strip`, `Text.TitleCase`: only ASCII whitespace and ASCII letters are modelled; Unicode case mapping and Unicode whitespace are not.
- The `json` and `__repr__` debug dumps of the search listing (search.py:45-58) and of the search are not modelled. The only use of the former is printing.
- Printing and logging are not modelled.
- The shared mutable default arguments (`filters={}`, `others=[]`, `description=[]`) are modelled as values. The source never mutates them in place after construction, so aliasing has no effect.
- In `photo_url`, only `RequestException` is retried. Any other exception from the request or the parser ends the call, and that path is not modelled.
- Filter values are modelled as strings or enum members; other Python value types are not.
- `Bot.RunScript`: a search response that fails to decode ends the run, like the uncaught exception it is; the other errors `execute` can raise (a missing key, a network error) are not modelled.
