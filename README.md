# Restaurant availability monitor — status decision model

This project models the decision core of the restaurant monitor in `app.py`.
The monitor watches the Bolt Food and Wolt storefronts of a restaurant chain
and shows whether each one is open.

- **Classification.** A fetched storefront page becomes a status and a
  reason shown to the operator: Closed, Open, Uncertain or Error.
  `classify_with_reason` tries a fixed, per-platform list of textual signals
  and takes the first one it finds.
- **Fetching.** `fetch_status_and_reason` puts HTTP failures and network
  errors in front of the classifier.
- **Display order.** `brand_of` and `sort_key` order the registry of
  storefronts.
- **Sweep and listing.** `check_all` sweeps the registry into a results map
  keyed by URL. `api_status` lists the registry in display order. A
  storefront that has not been checked yet gets a placeholder.

Files, one module each:

- `wrappers.dfy`: `Option`.
- `text.dfy`: string primitives.
  - Substring search, which stands for Python's `in`.
  - Lower-casing.
  - The `\s+` collapse and the `<[^>]+>` tag stripping.
  - Decimal formatting of HTTP codes.
- `normalize.dfy`: `_normalize_html_text` and `_extract_availability_info_block`.
- `classifier.dfy`: `classify_with_reason`. Every regular expression is a
  `Pattern`. An abstract `Matcher` says whether a pattern is found in a text.
  Each platform branch is proved equal to a decision list written as data.
- `fetch.dfy`: `fetch_status_and_reason`. The fetch outcome is an input.
- `registry.dfy`: the `RESTAURANTS` table.
- `ordering.dfy`: `brand_of`, `BRAND_ORDER`, `LOC_ORDER` and `sort_key`.
  `sorted` is modelled as a stable insertion sort.
- `monitor.dfy`: the sweep loop of `check_all` and the list loop of
  `api_status`. The two globals `last_results` and `last_full_check_time`
  are the fields of the `Monitor` class, and `CheckAll` reassigns them.

A status is the datatype `Status`. `Label` gives the exact string the source
stores, and `LabelInjective` proves that no two statuses share a string. The
form with the HTTP code is `ClosedHttp(code)`, shown as "🔴 Închis (<code>)".

## Model

| member | source | states |
|---|---|---|
| Text.FindFrom | app.py:68-72 | the search returns the leftmost occurrence at or after the start, and None only when there is none (Python `sub in s`) |
| Text.ContainsPrefix | app.py:83 | a location that contains a keyword also contains every prefix of it |
| Text.LowerChar | app.py:68 | ASCII capitals map to their lower-case letters, and characters outside the modelled capitals are unchanged |
| Text.CollapseWhitespace | app.py:90 | the result has only single plain spaces as whitespace, is no longer than the input, is empty only for empty input, and starts with a space exactly when the input starts with whitespace |
| Text.CollapseKeepsVisible | app.py:90 | collapsing keeps every non-whitespace character in order and adds none |
| Text.CollapseIdempotent | app.py:90 | collapsing twice equals collapsing once |
| Text.CollapseKeepsWords | app.py:90 | collapsing keeps the words, the maximal runs of non-whitespace: each interior whitespace run becomes a separator, so no two words merge and none splits |
| Text.CollapseKeepsTrailingSpace | app.py:90 | the result ends in a space exactly when the input ends in whitespace |
| Text.ReplaceNbspKeepsWords | app.py:89 | replacing no-break spaces by spaces keeps the words |
| Text.TagEnd | app.py:102 | the end found for a tag is the first '>' after the '<', with at least one character between them |
| Text.StripTagsLeavesNoTags | app.py:102 | after replacing every `<[^>]+>` with a space, no match of the pattern is left |
| Text.StripTagsKeepsText | app.py:102 | text before the first '<' is kept unchanged, and stripping goes on with what follows |
| Text.StripTagsReplacesTag | app.py:102 | a tag `<x>` with non-empty `x` free of '>' becomes exactly one space, and stripping goes on after it |
| Text.NatToDecimal | app.py:176 | the code is written as a non-empty digit string with no leading zero |
| Text.DecimalRoundTrip | app.py:176 | reading the digits back gives the code |
| Normalize.Canonical | app.py:89-90 | unescaped, lower-cased, no-break spaces replaced, whitespace collapsed; the visible characters and the words are those of the lower-cased unescaped text |
| Normalize.NormalizeHtmlText | app.py:88-92 | the document text is collapsed, and collapsing it again changes nothing; its visible characters and its words are those of the lower-cased unescaped page; the ASCII shadow is the fold of the text |
| Normalize.AvailabilityInfoMatchIsLeftmost | app.py:95-98 | the match found satisfies the pattern; it has the leftmost start and, for that start, the shortest lazy group; when none is found the pattern matches nowhere |
| Normalize.AvailabilityInfoFoundIffMatch | app.py:99-100 | a match is found exactly when the pattern matches somewhere in the page |
| Normalize.ExtractAvailabilityInfoBlock | app.py:94-105 | None exactly when there is no match; otherwise group 1 with its tags stripped and normalised, in collapsed form |
| Normalize.PreparePage | app.py:112-118 | the block is present exactly when the pattern matches; its ASCII shadow is computed exactly when the block is non-empty |
| Classifier.LabelInjective | app.py:110 | distinct statuses have distinct display strings |
| Classifier.ClassifyBolt | app.py:121-153 | a Bolt verdict is Closed or Uncertain, never Open; Closed exactly when some closed signal is found or the toggle is on; the JSON signal gives the JSON reason; with no signal the reason is the toggle's fallback |
| Classifier.ClassifyWolt | app.py:156-163 | Open exactly when `is_open` false is absent and `is_open` true is present; Uncertain exactly when none of the four signals is found; `is_open` false always gives the JSON closed reason |
| Classifier.ClassifyGeneric | app.py:165-170 | Closed exactly when closed wording is found; Open exactly when there is no closed wording and there is open wording |
| Classifier.ClassifyPage | app.py:121-170 | the branch is chosen by URL, Bolt before Wolt; a Bolt page is never Open; the JSON signals decide outright; every reason is non-empty |
| Classifier.ClassifyWithReason | app.py:107-170 | the page is normalised and classified; the status is Open, Closed or Uncertain, never Error; the reason is non-empty |
| Classifier.ToggleOnlyTurnsBoltUncertainIntoClosed | app.py:151-153 | the toggle changes only a Bolt verdict that would be Uncertain, and turns it into Closed with the "assume closed" reason; Wolt and other pages are unaffected |
| Classifier.FirstMatch | app.py:121-170 | a decision list answers with the verdict of the first rule that fires, or the fallback when none fires |
| Classifier.BoltIsDecisionList | app.py:121-153 | the Bolt branch equals its ten-rule list (JSON, aria-label, block, document) read top to bottom |
| Classifier.BoltPrecedence | app.py:121-149 | when a rule is the first to fire on a Bolt page, its verdict wins whatever the later rules would say |
| Classifier.WoltIsDecisionList | app.py:156-163 | the Wolt branch equals its rule list: `is_open` false, then true, then UI wording |
| Classifier.GenericIsDecisionList | app.py:165-170 | the generic branch equals its rule list: closed wording before open wording |
| Fetch.FetchStatusAndReason | app.py:172-179 | Error exactly when the request raised, with the prefix and exactly the first 140 characters of the message (all of it when shorter); ClosedHttp exactly when the code is at least 400, carrying that code and reason "HTTP <code>"; otherwise the classifier's verdict; the reason is never empty |
| Fetch.HttpFailureIgnoresBody | app.py:175-176 | on an HTTP failure the body and the classifier settings do not affect the verdict |
| Fetch.HttpReasonCarriesCode | app.py:176 | the reason of an HTTP failure is "HTTP " followed by digits that read back as the status code |
| Registry.RestaurantsHaveDistinctUrls | app.py:38-59 | no two registry entries share a URL |
| Ordering.BrandOf | app.py:67-73 | the brand is always a key of BRAND_ORDER |
| Ordering.BrandOfCases | app.py:67-73 | Tacos exactly when the lower-cased location contains "taco"; Smash exactly when it contains "smash" but not "taco"; otherwise Burgers |
| Ordering.BrandRank | app.py:79 | the brand rank is 1 to 3 and never the default 99 |
| Ordering.BrandRankOfTacos | app.py:75-79 | the rank is 3 exactly for taco locations |
| Ordering.LocScore | app.py:80-85 | 99 exactly when no LOC_ORDER keyword occurs; otherwise the rank of the first keyword, in dictionary order, that occurs |
| Ordering.OltenitEntryIsShadowed | app.py:76 | the "olteniț" key never decides a rank, because "olteni" comes first and matches whenever it does |
| Ordering.SortKey | app.py:78-86 | the loop with `break` computes the key tuple; Bolt flag, brand rank never 99, location rank 99 exactly when no keyword occurs |
| Ordering.KeyLeTotalOrder | app.py:86 | tuple comparison of keys is total, transitive and antisymmetric |
| Ordering.BoltBeforeOthers | app.py:86 | every Bolt key is strictly below every non-Bolt key |
| Ordering.SortBy | app.py:190 | the result is a permutation of the input, in ascending key order |
| Ordering.SortByKey | app.py:190 | the displayed order is a permutation of the registry |
| Ordering.SortByKeyIsSorted | app.py:379 | the displayed order is ascending in `sort_key` |
| Ordering.DisplayOrderPutsBoltFirst | app.py:379 | in display order no non-Bolt entry precedes a Bolt entry |
| Monitor.RecordFor | app.py:196-206 | a stored record carries the entry's URL, platform and location, the brand of its location, the fetched verdict's status and reason, and the clock reading for that URL |
| Monitor.Placeholder | app.py:382-390 | the placeholder for an unchecked entry carries its platform, location, brand and URL, and is Uncertain, with reason "Încă nu s-a verificat" and time "—" |
| Monitor.SweepResultsShape | app.py:192-206 | after a sweep the keys are exactly the swept URLs, and each record is the one made for an entry with that URL |
| Monitor.SweepResultsWellFormed | app.py:198-206 | every swept record sits under its own URL, has the brand of its location and a reason |
| Monitor.SweepResultsOfDistinct | app.py:198 | with distinct URLs each entry's own record is the one kept |
| Monitor.PermutationKeepsDistinctUrls | app.py:190 | sorting the registry keeps its URLs distinct |
| Monitor.SweepOrderIrrelevant | app.py:195-198 | with distinct URLs and the same per-URL records (verdict and time), the completion order does not change the results map |
| Monitor.ListingAfterSweep | app.py:379-392 | after a sweep of the registry, in any completion order, the listing has no placeholder: item i is the record of the i-th entry in display order |
| Monitor.BuildResults | app.py:192-206 | the loop builds the sweep's map: keys exactly the items' URLs, every record well formed |
| Monitor.ListStatus | app.py:379-392 | one item per entry, in order: the stored record unchanged when there is one, the placeholder otherwise; each item has the entry's URL and a non-empty reason |
| Monitor.Monitor.constructor | app.py:184-185 | no results and no completion time before the first sweep |
| Monitor.Monitor.CheckAll | app.py:187-208 | both globals are replaced only after every check has completed; the keys are exactly the registry URLs; with distinct URLs each entry's own record is stored, and for the same per-URL records the map does not depend on completion order; the completion time is the one passed in |
| Monitor.Monitor.ApiStatus | app.py:376-392 | one item per registry entry, in `sort_key` order, each the stored record or the placeholder |

## Left out

- Flask routes, the dashboard HTML/CSS/JS and the `jsonify` envelope (app.py:226-374, 394-407); `/api/refresh` only calls `check_all`. These are presentation only. The `items` list is modelled; the version, interval and completion time fields of the response are not.
- `requests.get` with its headers and timeout (app.py:174). This is network I/O. Its result is the input `FetchOutcome`: either an exception's text or a status code and body.
- `FetchStatusAndReason`: an exception raised while classifying a successful response also lands in the `except` branch. The model assumes the classifier does not raise.
- The `ThreadPoolExecutor`/`as_completed` fan-out (app.py:193-197). The checks run one after another in a caller-given completion order, each entry once. `SweepOrderIrrelevant` shows that the order does not matter when URLs are distinct and each URL's record is fixed. Interleaving with a concurrent `api_status` is not modelled.
- `background_loop`, `time.sleep` and the thread start (app.py:210-222, 412-416). These are scheduling only.
- `now_str` and the time zone (app.py:64-65). These are clock reads. The per-record times and the completion time are inputs.
- `html.unescape` and the NFKD ASCII fold. These are library behaviour, passed in as the functions of `TextLib`.
- Text.LowerChar: `str.lower` is modelled only for ASCII and the Romanian capitals (Ă Â Î Ș Ş Ț Ţ). Every other character is kept as is.
- The regular-expression engine for the classifier patterns (app.py:123-169). Whether a pattern matches is the abstract `Matcher`. The whitespace collapse, the tag stripping and the availability-info pattern are modelled concretely.
- Environment and config parsing (app.py:20-23). The Bolt toggle is a parameter; the check interval is not used by the core.
- Private-API probes of the Bolt and Wolt backends are described for the system but do not appear in `app.py`, so they are not modelled.
- Ordering.SortBy: stability is built into the insertion sort but not stated as a property.
- Monitor.RecordFor: `checked_at` is `World.clock(url)`, one fixed reading per URL. In the source each reading is taken when that URL's result is processed (app.py:205), so real times depend on the completion order; order irrelevance is stated for fixed per-URL records only.
- Monitor.Monitor.CheckAll: the completion order must be a permutation of the registry. That is what `as_completed` yields; it is not derived from a model of the pool.
