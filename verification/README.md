# ad-generator: the pure logic, modelled in Dafny

ad-generator is a Next.js application. A user submits the URL of a company's web page. A `POST /api/process-page` handler scrapes the page text and asks a chat model to extract company insights. Around that I/O sits a small amount of pure logic, and this project models it and proves its properties:

- **Tagged-output extractor** (`tag_extraction.dfy`): `extractTagContents(input, tag)` runs the global regular expression `<tag>(.*?)(</tag>|$)`, with the dot matching newlines.
  - The scan is written directly on strings as `Captures`.
  - `ScanSpec` describes the scan declaratively, and the scan is proved to be the one and only sequence of matches meeting that description.
  - The results are the non-empty captures, with their leading whitespace removed.
  - `tag_extraction_examples.dfy` works through the corner cases on concrete inputs: an unterminated last tag, an empty pair, a trailing opener, a nested opener and a whitespace-only capture.
- **Whitespace normaliser** (`html_scraping.dfy`): `replace(/\s+/g, " ").trim()`, plus the scraper's rule that any failure yields `""`. `text.dfy` holds the ECMAScript whitespace set shared by `\s`, `trim` and `trimStart`, and the trimming functions.
- **Schemas** (`schema.dfy`, `json.dfy`):
  - the zod objects as decoders over a JSON datatype (`TargetingSchema`, `WebPageInsightsSchema`)
  - the length, cardinality and enumeration checks as issue lists (`AdCopySchema`, `AdSchema`, `TargetingRecommendationsSchema`)
  - the described-keys map that `schemaToYamlDescription` builds before it serialises anything
- **Targeting catalog** (`targeting_catalog.dfy`): the three element lists are tagged with their category and concatenated. The urn index is then built by a left fold.
- **Insights post-processing** (`operations.dfy`): the reply text, then `JSON.parse`, then `safeParse`, giving a value or `null`.
- **Request outcome** (`process_page_route.dfy`): the handler as a pure function of what its collaborators return. The result is the response (400, 404, 200 or 500) plus the sequence of collaborator calls.

External behaviour enters as parameters:

- the page fetch and DOM extraction: a `FetchOutcome`
- the chat completion: a `Result<Completion, Thrown>`
- `JSON.parse`: a function returning `Option<Json>`, where `None` stands for a throw
- zod's URL check: a predicate `isUrl`
- `request.json()`: an `Option<Json>`
- the catalog data files: arbitrary sequences

Behaviour of the code that a reader might not expect, which the model keeps:

- Malformed reply text makes `JSON.parse` throw out of `extractWebPageInsights`, and the handler answers 500 (`MalformedReplyThrows`, `ThrownIsInternalError`).
- The handler answers 200 whenever insights extraction returns, even when it returns `null` (`ProcessedPage`).
- The request schema has only `url` (`ValidateRequest`).

## Model

| member | source | states |
|---|---|---|
| TagExtraction.IndexOf | src/_server/ai/extractTagContents.ts:2 | the search for the next literal tag returns the first occurrence at or after the scan position, and none exists before it; `None` means no occurrence at all from there on |
| TagExtraction.NextMatch | src/_server/ai/extractTagContents.ts:2-6 | one execution of the expression finds a match exactly when an opening tag remains. The match's capture lies inside the input, and the scan resumes strictly later, so the loop terminates |
| TagExtraction.NextMatchMeetsSpec | src/_server/ai/extractTagContents.ts:2-7 | a match found by one execution begins at the first opening tag from the scan position on. Its capture ends at the first closing tag, or at end of input when none follows |
| TagExtraction.CapturesMeetSpec | src/_server/ai/extractTagContents.ts:2-7 | every match of the scan starts at an opening tag, which is the first one after the previous match ended. Its capture runs from just after the opening tag to the first closing tag, or to end of input when none follows. No opening tag is left after the last match |
| TagExtraction.SpecDeterminesCaptures | src/_server/ai/extractTagContents.ts:2-7 | conversely, any sequence of matches meeting that description is exactly the scan, so the description determines the matches uniquely |
| TagExtraction.Collect | src/_server/ai/extractTagContents.ts:6-11 | the loop body never keeps more entries than it had matches, and no kept entry starts with whitespace |
| TagExtraction.ExtractTagContents | src/_server/ai/extractTagContents.ts:1-14 | the function is total (it has no precondition), and no result starts with whitespace |
| TagExtraction.KeptIndices | src/_server/ai/extractTagContents.ts:8 | the positions that pass `if (content)` are exactly the matches with a non-empty capture, in increasing order |
| TagExtraction.CollectSelects | src/_server/ai/extractTagContents.ts:6-11 | the result lists, in document order, the trimmed capture of every match whose capture is non-empty, and nothing else |
| TagExtraction.ExtractCharacterized | src/_server/ai/extractTagContents.ts:1-14 | for the unique match sequence meeting the description, the result is the trimmed non-empty captures in order |
| TagExtraction.NoOpenerNoResult | src/_server/ai/extractTagContents.ts:2-13 | there is no match exactly when the input has no opening tag, and then the result is empty |
| TagExtraction.SpecOrdered | src/_server/ai/extractTagContents.ts:2-10 | matches are in document order: each later match begins after every earlier one has ended |
| TagExtraction.NestedOpenerSwallowed | src/_server/ai/extractTagContents.ts:2-10 | no match begins inside another match's span: an opening tag nested in a capture is not extracted separately |
| TagExtraction.OpenTagCovered | src/_server/ai/extractTagContents.ts:2-10 | every opening tag in the input lies within the span of some match, either beginning it or swallowed by it |
| TagExtraction.CapturesBound | src/_server/ai/extractTagContents.ts:6-11 | the scan produces at most as many matches as there are opening tags from the scan position on |
| TagExtraction.ResultBound | src/_server/ai/extractTagContents.ts:6-13 | the result has at most as many entries as the input has occurrences of the opening tag |
| TagExtraction.WhitespaceCaptureKeptEmpty | src/_server/ai/extractTagContents.ts:8-9 | a non-empty capture of only whitespace passes the emptiness test before trimming, so it reaches the result as `""` |
| TagExtractionExamples.UnterminatedLastTag | src/_server/ai/extractTagContents.ts:2-9 | `<t>A</t>B<t>C` yields `["A", "C"]`: the unterminated last opener captures to end of input |
| TagExtractionExamples.EmptyPair | src/_server/ai/extractTagContents.ts:8 | `<t></t>` yields nothing: the empty capture is dropped |
| TagExtractionExamples.TrailingOpenTag | src/_server/ai/extractTagContents.ts:2-8 | `x<t>` yields nothing: an opener at end of input captures the empty string |
| TagExtractionExamples.NestedOpenTag | src/_server/ai/extractTagContents.ts:2-10 | `<t>a<t>b</t>c</t>` yields `["a<t>b"]`: the inner opener is swallowed, and scanning resumes after the first closer |
| TagExtractionExamples.WhitespaceOnly | src/_server/ai/extractTagContents.ts:8-9 | `<t> \n</t>` yields `[""]` |
| Text.TrimStart | src/_server/ai/extractTagContents.ts:9 | the result is a suffix of the input that does not start with whitespace, and everything removed was whitespace |
| Text.Trim | src/lib/htmlScraping.ts:17 | the result is a slice of the input with no whitespace at either end, and it keeps every non-whitespace character of the input in order |
| HtmlScraping.CollapseWhitespace | src/lib/htmlScraping.ts:17 | after the greedy replace, the only whitespace is `' '` and no two whitespace characters are adjacent. Non-whitespace characters keep their order. The result starts or ends with whitespace exactly when the input does, and is empty only for empty input |
| HtmlScraping.CollapseAsWords | src/lib/htmlScraping.ts:17 | every whitespace run becomes one space where it stood: the result is the input's words (maximal runs of non-whitespace) joined by single spaces, with one space in front when the input starts with whitespace and one behind when it ends with whitespace after some word |
| HtmlScraping.CollapseWords | src/lib/htmlScraping.ts:17 | collapsing and then trimming gives exactly the input's words joined by single spaces |
| HtmlScraping.SpaceBetweenWords | src/lib/htmlScraping.ts:17 | any non-empty whitespace run between two words becomes exactly one space, so words are neither merged nor split |
| HtmlScraping.WordsAreWords | src/lib/htmlScraping.ts:17 | every entry of the word list is non-empty and holds no whitespace |
| HtmlScraping.NormalizeText | src/lib/htmlScraping.ts:17 | the output is the input's words joined by single spaces. It therefore has no leading or trailing whitespace, is single-spaced with `' '` only, and removing its whitespace gives the input with its whitespace removed |
| HtmlScraping.CollapseFixpoint | src/lib/htmlScraping.ts:17 | collapsing leaves an already single-spaced string unchanged |
| HtmlScraping.NormalizedFixpoint | src/lib/htmlScraping.ts:17 | a normalised string is its own normal form |
| HtmlScraping.NormalizeIdempotent | src/lib/htmlScraping.ts:17 | normalising twice is the same as normalising once |
| HtmlScraping.NormalizeEmpty | src/lib/htmlScraping.ts:17 | the output is `""` exactly when the input is empty or all whitespace |
| HtmlScraping.GetWebpageContent | src/lib/htmlScraping.ts:4-21 | any fetch or parse failure yields `""` rather than an error. Otherwise the output is the normal form of the body text, that is, its words joined by single spaces. It is empty exactly when fetching failed or the text is all whitespace |
| Schema.DecodeTargeting | src/lib/schema.ts:6-10 | a targeting entry is accepted exactly when `name`, `urn` and `category` are all strings |
| Schema.TargetingRoundTrip | src/lib/schema.ts:6-10 | decoding an encoded targeting entry gives it back |
| Schema.TargetingDecodeStrips | src/lib/schema.ts:6-10 | a decoded entry re-encodes to the input object restricted to the three schema keys |
| Schema.DecodeWebPageInsights | src/lib/schema.ts:14-38 | the record is produced exactly when `companyName`, `industry` and `targetAudience` are strings and `productsServices` and `valuePropositions` are arrays of strings |
| Schema.InsightsRoundTrip | src/lib/schema.ts:14-38 | decoding an encoded insights record gives it back |
| Schema.InsightsDecodeStrips | src/lib/schema.ts:14-38 | a decoded record is the input object with every key outside the schema removed |
| Schema.NullFieldRejected | src/lib/schema.ts:14-38 | a `null` in any of the five fields fails the whole record |
| Schema.MissingFieldRejected | src/lib/schema.ts:14-38 | a missing field, or a value that is not an object, fails the record |
| Schema.CheckTargetingRecommendations | src/lib/schema.ts:42-46 | valid exactly when there are 1 to 3 revenue ranges, 3 to 5 industries and 5 to 10 job titles. The number of issues is the number of lists outside their range, so each list yields at most one. Each of the six violations (too few or too many of each list) is reported, naming the list and the violated bound, exactly when it occurs |
| Schema.CheckAdCopy | src/lib/schema.ts:52-55 | valid exactly when the headline has at most 70 characters and the description at most 200. Each violated bound is reported as its own issue |
| Schema.ParseCta | src/lib/schema.ts:63-74 | a call-to-action label is accepted exactly when it is one of the ten listed strings, and then names the value that prints as it |
| Schema.CtaRoundTrip | src/lib/schema.ts:63-74 | every call-to-action value prints as one of the ten labels and parses back to itself |
| Schema.CtaOptionsDistinct | src/lib/schema.ts:63-74 | the enumeration has exactly ten distinct labels |
| Schema.CheckAd | src/lib/schema.ts:58-75 | valid exactly when `adName` is at most 255 characters, the headline at most 70 and the description at most 200, the URL passes the URL check, and `ctaText` is one of the ten labels. The enumeration, URL and name-length failures are each reported by field |
| Schema.AdProjectsToAdCopy | src/lib/schema.ts:52-62 | the headline and description of a valid ad form valid ad copy |
| Schema.DescribedKeys | src/lib/schema.ts:90-98 | every key of the map is a shape key carrying a non-empty description |
| Schema.DescribedKeySet | src/lib/schema.ts:90-98 | the map's keys are exactly the shape keys whose description is present and non-empty |
| Schema.DescribedKeysExact | src/lib/schema.ts:90-98 | with distinct shape keys, each described key maps to its own description and each undescribed key is absent |
| Schema.InsightsAllDescribed | src/lib/schema.ts:14-38 | all five insights fields carry descriptions, so the described-keys map of that schema has all five keys |
| TargetingCatalog.ParseCategory | src/lib/linkedin/targeting/index.ts:6-10 | only the three category names `revenue`, `industry` and `jobTitle` are recognised, each as the category that prints as it |
| TargetingCatalog.CategoryRoundTrip | src/lib/linkedin/targeting/index.ts:6-10 | each category's name identifies it |
| TargetingCatalog.AllTargetingGroups | src/lib/linkedin/targeting/index.ts:12-25 | the catalog length is the sum of the three source lengths |
| TargetingCatalog.CatalogLayout | src/lib/linkedin/targeting/index.ts:12-25 | the catalog is the industry entries, then the revenue entries, then the job-title entries. Each slice, with the category removed, is its source list in order, so names and urns are kept |
| TargetingCatalog.CategoryByOrigin | src/lib/linkedin/targeting/index.ts:13-24 | an entry's category is `industry`, `revenue` or `jobTitle` exactly according to the list it came from |
| TargetingCatalog.IndexByUrn | src/lib/linkedin/targeting/index.ts:27-31 | the fold's keys are the starting keys plus the urns seen. Keys not seen keep their old entry. For each urn, the entry stored is the last one with that urn |
| TargetingCatalog.TargetingGroupsByUrn | src/lib/linkedin/targeting/index.ts:27-31 | the index's key set equals the set of urns in the catalog |
| TargetingCatalog.IndexLookup | src/lib/linkedin/targeting/index.ts:27-31 | looking up key k returns a catalog entry whose urn is k, namely the last entry with that urn |
| TargetingCatalog.IndexUniqueUrns | src/lib/linkedin/targeting/index.ts:27-31 | when urns are distinct, every catalog entry is found under its own urn |
| Operations.ResponseText | src/_server/ai/operations.ts:48 | the text parsed is the first choice's message content when present and non-empty, and `"{}"` otherwise |
| Operations.ExtractWebPageInsights | src/_server/ai/operations.ts:47-53 | a rejected request propagates. Otherwise the result throws exactly when the reply text does not parse, and is a record, rather than `null`, exactly when the parsed value has the insights shape |
| Operations.InsightsAreParsedReply | src/_server/ai/operations.ts:47-51 | a returned record is the parsed reply restricted to the schema's keys |
| Operations.EmptyReplyIsNull | src/_server/ai/operations.ts:48-53 | missing or empty content reads as `"{}"`, which lacks every field, so the result is `null` |
| Operations.NullFieldIsNull | src/_server/ai/operations.ts:26-53 | a field returned as `null`, as the prompt invites, makes the whole result `null` rather than a partial record |
| Operations.MalformedReplyThrows | src/_server/ai/operations.ts:48 | unparsable reply text throws; it is not turned into `null` |
| ProcessPageRoute.ValidateRequest | src/app/api/process-page/route.ts:6-8 | the request is valid exactly when the body is an object whose `url` is a string passing the URL check, and then that string is the url |
| ProcessPageRoute.Post | src/app/api/process-page/route.ts:10-39 | the status is always 200, 400, 404 or 500. It is 400 exactly for a readable body that fails validation, and then nothing is called. Any call made starts with scraping the validated url |
| ProcessPageRoute.HandlePage | src/app/api/process-page/route.ts:18-31 | after scraping, the answer is 404 "Page not found" exactly when the page text is empty, with no extraction call. Otherwise extraction is called with the url and the text, and the answer is 200 with the success message when it returns, or 500 when it throws |
| ProcessPageRoute.InvalidRequestRejected | src/app/api/process-page/route.ts:13-15 | an invalid request is answered 400, and the scraper is never invoked |
| ProcessPageRoute.EmptyPageNotFound | src/app/api/process-page/route.ts:18-20 | a page that fails to load or holds only whitespace is answered 404 "Page not found", and insights are never requested |
| ProcessPageRoute.ProcessedPage | src/app/api/process-page/route.ts:22-31 | a page with text is answered 200 with the fixed success message whenever extraction returns, whether with a record or with `null`. Extraction receives exactly the validated url and the scraped content |
| ProcessPageRoute.ThrownIsInternalError | src/app/api/process-page/route.ts:11-38 | an unreadable body or a throw from insights extraction is answered 500 "Internal Server Error" |
| ProcessPageRoute.StatusDecision | src/app/api/process-page/route.ts:10-39 | a 200 or 404 answer implies a readable, valid request. The answer is 404 exactly when the scraped text is empty. A 200 answer made exactly the scrape and the extraction calls |

## Left out

- Networking and foreign libraries are parameters and are not modelled: the axios fetch, cheerio's element removal and `text()`, the OpenAI client (src/_server/ai/models.ts), `JSON.parse`, zod's URL check, `request.json()`, and `NextResponse`.
- `console.log` and `console.error` have no effect on any result, so they are not modelled.
- `generateTargeting` and `generateAdCopy` (src/_server/ai/operations.ts:55-56) are empty stubs. There is no targeting batcher or ad-variant chain to model.
- The prompt text of `extractWebPageInsights` is not modelled, and neither is the model's reply, beyond its parsed value.
- `zodToCamelCasedJsonSchema` and the `yaml.stringify` text are library serialisers. Only the map handed to `yaml.stringify` is modelled.
- The catalog data files (revenue, verticals, job titles) are not part of this model. The catalog is proved for arbitrary lists of `{ name, urn }` elements. Any extra fields an element may carry are not modelled.
- `TargetingCatalog.IndexByUrn` treats the object as a plain map. JavaScript's special handling of a key such as `__proto__` is not modelled, since urns never take that form.
- src/app/page.tsx (the browser UI) and src/_server/env.ts (environment defaults) have no logic worth verifying.
- HtmlScraping.CollapseWhitespace: its own contract states the spacing, the kept text and the ends only. Where each space goes is stated by `HtmlScraping.CollapseAsWords`, since a function's contract cannot rest on a lemma about that same function.
- Schema.CheckAdCopy, Schema.CheckAd and Schema.CheckTargetingRecommendations take records whose fields already have the right types. zod's type errors for those three schemas are not modelled. Only the targeting and insights schemas are decoded from JSON.
- Schema.CheckAdCopy, Schema.CheckAd: string length is the number of Unicode scalar values. zod counts UTF-16 code units, so the two differ for characters outside the Basic Multilingual Plane.
- Schema.CheckAd: the wording of zod's issues and their exact order across fields are not modelled. The checks are stated field by field.
- ProcessPageRoute.Post: the 400 body, `result.error.format()`, is modelled only as the marker `ValidationErrors`.
- TagExtraction.ExtractTagContents: the tag name is assumed to have no regular-expression metacharacters, because the source interpolates it unescaped. Positions count Unicode scalar values, where JavaScript counts UTF-16 code units. Whitespace is the ECMAScript set, every member of which is a single code unit.
- JSON numbers are integers in the `Json` datatype. None of the schemas here accepts a number, so their precision never affects a result.
