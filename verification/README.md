# gym-finder record linkage, in Dafny

This project models the record-linkage core of gym-finder. gym-finder searches Yelp and Google Places for gyms near a ZIP code. It decides which Yelp listing and which Google listing describe the same gym, and merges each matched pair into one record. The model is functional: immutable records, `"N/A"` sentinels kept as strings, scores as `real`, and the matcher as a fold over the Yelp list that carries the set of claimed Google indices.

Modules, following the program's structure:

- `Text`, `PyValue`, `Numbers`: shared helpers.
  - `Text`: ASCII `lower()`, `strip()`, whitespace collapsing, substring tests.
  - `PyValue`: the JSON-like Python values the sanitizers inspect, Python truthiness, `dict.get`, `str()`, and the exceptions the code can raise.
  - `Numbers`: sums and means.
- `Normalize`: `normalize_phone`, `normalize_address`, `extract_domain` and `clean_gym_name`. `NormalizeExamples` holds the phone formats of the test suite, for every choice of digits. `AddressExamples` works the three addresses of the test suite through `normalize_address`, one replacement at a time.
- `NameScores`: the name scorers.
  - `token_based_name_similarity`: Jaccard similarity of the word sets, after the stop words are removed.
  - `semantic_name_similarity`.
  - `detect_chain_match`.
- `AuxScores`: the standalone scorers `compare_price_ranges`, `compare_categories` and `compare_business_hours`. The matcher of this revision does not call them, and the model does not wire them in.
- `Matcher`: the per-pair confidence sum of `fuzzy_match_gyms`, and the matcher itself.
- `Greedy`: the one-to-one greedy matching loop and the output assembly, stated for any score function.
- `Records`: the provider record, the matcher's tagged output, and `_merge_gym_records`.
- `Sanitize`, `Yelp`, `Places`, `NewPlaces`: the provider sanitizers and the price-level tables.
  - `Sanitize`: the shared rating and review-count rules.
  - `Yelp`: `_validate_business_data` and the filter step of `search_gyms`.
  - `Places`: `_validate_place_data`, `convert_price_level` and `map_price_level`.
  - `NewPlaces`: the duplicated tables of the stand-alone Places API (New) script.
- `Enrichment`: `analyze_review_sentiment` and `calculate_business_profile_completeness`.
- `Instagram`: `detect_instagram_handle`.
- `Dedup`: `deduplicate_metro_gyms`, including the way an underscore inside a name or address shifts the signature's fields.
- `MetroStats`: `generate_metro_statistics`.

`SequenceMatcher(...).ratio()` is a parameter `ratio` of the matcher. The matcher requires only that its values lie in [0, 1]; the symmetry lemmas also assume it is symmetric. Python's exceptions are modelled as results: `PyResult` is either `Ok` or `Raised(TypeError | AttributeError)`. A float the sanitizers only pass through is kept as its text.

`src/yelp_service.py` and `yelp_service.py` are byte-for-byte identical. So are the two `detect_instagram_handle` bodies, in `src/gym_finder.py:448-461` and `gym_finder.py:87-100`. Each is modelled once, and that one definition stands for both files.

## Model

| member | source | states |
|---|---|---|
| Normalize.NormalizePhone | src/gym_finder.py:331-347 | None, "" and "N/A" give ""; otherwise the result consists of digits only and is the input's digits, or those digits less a leading "1" when there were eleven of them; the result is never an 11-digit number starting with "1" |
| Normalize.NormalizePhoneIdempotent | src/gym_finder.py:331-347 | normalizing a normalized phone number changes nothing |
| Normalize.DigitsKeepsDigits | src/gym_finder.py:337 | `Digits`, the `\D` removal, keeps every digit of the input and nothing else |
| Normalize.DigitsConcat | src/gym_finder.py:337 | the digits of a concatenation are the digits of each part, in order |
| NormalizeExamples.NormalizePhoneLocalFormat | tests/test_gym_finder.py:178 | "(AAA) BBB-CCCC" normalizes to its ten digits, for every choice of digits |
| NormalizeExamples.NormalizePhoneCountryCodeFormat | tests/test_gym_finder.py:180 | "1-AAA-BBB-CCCC" normalizes to its ten digits without the country code, for every choice of digits |
| Normalize.ApplyReplacements | src/gym_finder.py:278-323 | the abbreviation pass, in the dict's order, introduces no upper-case letter |
| Normalize.NormalizeAddress | src/gym_finder.py:269-329 | None, "" and "N/A" give ""; otherwise the result has no upper-case letter, no whitespace but single plain spaces, no leading or trailing space, and every remaining comma or period is followed by a digit |
| Normalize.ApplyReplacementsAppend | src/gym_finder.py:322-323 | running the replacement loop over two tables in turn is running it over the joined table, so the dict can be taken in pieces |
| Normalize.ApplyReplacementsKeeps | src/gym_finder.py:322-323 | text in which no key of the table occurs comes out of the loop unchanged |
| Normalize.ApplyReplacementsAt | src/gym_finder.py:322-323 | the loop is the entries before entry k, then `str.replace` with entry k, then the entries after it |
| Normalize.ApplyAddressReplacements | src/gym_finder.py:278-323 | the address dict is the street types, building types, ordinals, directions, city names and common variations, applied in that order |
| Normalize.DropPunctuationKeeps | src/gym_finder.py:326 | text with no comma or period is left alone by `[,\.](?!\d)` |
| Normalize.DropPunctuationAppend | src/gym_finder.py:326 | when the first part does not end in a comma or period, the removal works on each part separately |
| Normalize.NormalizeAddressSteps | src/gym_finder.py:269-329 | when the lowered address is already single-spaced and trimmed, the result is the replacement loop then the punctuation removal, with nothing left for the final collapse and strip to do |
| Normalize.NormalizeAddressKeeps | src/gym_finder.py:269-329 | an address that is already lower-case, single-spaced and trimmed, with no ',' or '.' and no key of the dict, comes back unchanged |
| AddressExamples.NormalizeAddressMainStreet | tests/test_gym_finder.py:166 | "123 Main Street" normalizes to "123 main st" |
| AddressExamples.NormalizeAddressFirstAvenue | tests/test_gym_finder.py:167 | "456 First Avenue, Suite 5" normalizes to "456 1st ave ste 5" |
| AddressExamples.NormalizeAddressWestSide | tests/test_gym_finder.py:168 | "789 West 42nd St., New York" normalizes to "789 w 42nd st ny" |
| Text.ReplaceAllAtFront | src/gym_finder.py:323 | `str.replace` on a text that starts with the key puts the replacement first and goes on after the key |
| Text.ReplaceAllSkips | src/gym_finder.py:323 | `str.replace` copies a prefix in which no occurrence of the key starts |
| Text.ReplaceAll | src/gym_finder.py:323 | `str.replace` brings in no character found in neither the text nor the replacement; a text without the key, or a replacement equal to the key, comes back unchanged |
| Text.Lower | src/gym_finder.py:275 | `lower()` keeps the length |
| Text.LowerChars | src/gym_finder.py:275 | `lower()` works character by character: position i of the result is character i lowered |
| Text.LowerChar | src/gym_finder.py:275 | a lowered character is never an upper-case letter; an upper-case letter becomes the lower-case letter at the same place in the alphabet, and any other character stays |
| Text.LowerHasNoUpper | src/gym_finder.py:275 | a lowered text has no upper-case letter |
| Text.LowerIdempotent | src/gym_finder.py:275 | lowering twice is lowering once |
| Text.LowerAppend | src/gym_finder.py:275 | lowering a concatenation lowers each part |
| Text.Strip | src/gym_finder.py:327 | `strip()` gives a slice of the text that neither starts nor ends with whitespace, with only whitespace cut off before and after it |
| Text.StripKeepsText | src/gym_finder.py:327 | stripping removes only whitespace: every other character stays, in order |
| Text.CollapseSpaces | src/gym_finder.py:327 | `re.sub(r'\s+', ' ', ...)` is empty exactly for the empty text, starts with a space exactly when the text starts with whitespace, has only single plain spaces, and brings in no other character |
| Text.CollapseKeepsText | src/gym_finder.py:327 | collapsing changes only whitespace: every other character stays, in order |
| Text.CollapseSpacesKeeps | src/gym_finder.py:327 | text whose only whitespace is single plain spaces is unchanged |
| Normalize.DropPunctuationShape | src/gym_finder.py:326 | after `[,\.](?!\d)` is removed, every comma or period is followed by a digit, and a leading digit stays in front |
| Normalize.DropPunctuation | src/gym_finder.py:326 | the removal brings in no character |
| Normalize.DropPunctuationOnlyPunct | src/gym_finder.py:326 | only commas and periods are removed: every other character stays, in order |
| Normalize.DropPunctuationFixes | src/gym_finder.py:326 | text whose every comma and period is followed by a digit is left alone |
| Normalize.DropPunctuationIdempotent | src/gym_finder.py:326 | removing the punctuation a second time changes nothing |
| Normalize.CollapseKeepsPunctuation | src/gym_finder.py:327 | collapsing whitespace runs keeps every comma and period followed by a digit |
| Normalize.StripKeepsPunctuation | src/gym_finder.py:327 | stripping keeps every comma and period followed by a digit |
| Normalize.ExtractDomain | src/gym_finder.py:349-362 | None, "" and "N/A" give ""; the domain has no upper-case letter and contains no '/', '?' or '#' |
| Normalize.ExtractDomainOfLink | src/gym_finder.py:355-360 | the domain of "https://www.HOST/PATH" and of "https://HOST/PATH" is HOST, for every plain host name not itself starting with "www." |
| Normalize.ExtractDomainOfHostLink | src/gym_finder.py:355-360 | the domain of an "https://" link is its host, less a leading "www." |
| Normalize.NetlocOfLink | src/gym_finder.py:355-356 | the network location of "https://HOST/..." is HOST |
| Normalize.AfterScheme | src/gym_finder.py:355 | `urlparse` cuts off the scheme and its colon exactly when the text before the first colon is a scheme: a letter, then letters, digits, '+', '-' or '.'; otherwise the text stays whole |
| Normalize.Authority | src/gym_finder.py:355-356 | after a leading "//", the network location is the text up to the first '/', '?' or '#', and `urlparse` raises exactly when that text has an unbalanced '[' or ']'; without "//" it is empty |
| Normalize.Netloc | src/gym_finder.py:355-356 | the network location `urlparse` returns contains no '/', '?' or '#' |
| Normalize.LeftmostMatch | src/gym_finder.py:378-379 | the regex search finds the leftmost start from which the suffix pattern matches up to the end, and no earlier start matches |
| Normalize.CleanGymName | src/gym_finder.py:364-390 | the cleaned name is no longer than the name, lower-case and stripped |
| Normalize.CleanGymNameOneWord | src/gym_finder.py:373-390 | a name without whitespace is only lower-cased, because every suffix pattern starts with `\s+` |
| Normalize.CleanGymNameDropsEntitySuffix | src/gym_finder.py:373-379 | the entity suffix " llc" after a one-word name is removed |
| Normalize.RemoveAtEndNoMatch | src/gym_finder.py:378-379 | `re.sub(pattern$, '')` with no match at the end, or just before a final newline, leaves the text unchanged |
| Normalize.RemoveAllAtEndNoMatch | src/gym_finder.py:378-388 | a list of substitutions none of which matches at the end leaves the text unchanged |
| Normalize.RemoveAtEnd | src/gym_finder.py:378-379 | `re.sub(pattern$, '')` never lengthens the text and introduces no character |
| Normalize.RemoveAtEndLeftmost | src/gym_finder.py:378-379 | when some suffix matches the pattern, the text is cut at the leftmost start from which the pattern matches the rest |
| Normalize.RemoveAtEndBeforeNewline | src/gym_finder.py:378-379 | with no match at the very end but one before a final newline, that match is cut at its leftmost start and the newline is kept, as `$` allows |
| Normalize.RemoveAllAtEnd | src/gym_finder.py:378-388 | the two suffix loops never lengthen the name and introduce no character |
| Normalize.RemoveAllAtEndAppend | src/gym_finder.py:378-388 | the entity loop followed by the location loop is one loop over both lists |
| Normalize.CleanGymNameSteps | src/gym_finder.py:364-390 | for every name, the empty one included, the result is the two suffix loops on the lowered name, then `strip()` |
| Normalize.CleanGymNameNoSuffix | src/gym_finder.py:364-390 | a name none of whose suffix patterns matches at the end of its lower-cased form is only lower-cased and stripped |
| Normalize.CleanGymNameCutsSuffix | src/gym_finder.py:364-390 | a word without whitespace followed by a match of suffix pattern i comes back as the lower-cased word, when no earlier pattern matches at the end of the name |
| Normalize.RemoveSuffixAfterWords | src/gym_finder.py:378-379 | a pattern made of `\s+` and tokens, matching the text after words that end in a non-space, removes exactly that text: no earlier start can match, since it would hold one run of whitespace too many or start without one |
| Normalize.RemoveAllCutsSuffixAfterWords | src/gym_finder.py:378-388 | the list form: pattern i cuts the text back to the words, and the patterns after it leave the words alone when none of them matches at their end |
| Normalize.CleanGymNameCutsSuffixAfterWords | src/gym_finder.py:364-390 | words (any number, ending in a non-space) followed by a match of suffix pattern i come back as the lower-cased, stripped words, when no earlier pattern matches at the end of the name and no later one at the end of the words |
| NameScores.WordsKeepWordChars | src/gym_finder.py:159-160 | the `\b\w+\b` words, concatenated, are exactly the word characters of the name, in order |
| NameScores.WordsAreWordChars | src/gym_finder.py:159-160 | every word consists of word characters only |
| NameScores.Words | src/gym_finder.py:158-159 | `re.findall(r'\b\w+\b')` yields only non-empty words; their content is stated by the two lemmas above |
| NameScores.TokenSet | src/gym_finder.py:159-165 | the token set holds no stop word and no empty word |
| NameScores.Jaccard | src/gym_finder.py:167-176 | Jaccard similarity is in [0, 1]; it is 1 exactly for equal sets, two empty sets included, and positive exactly when the sets share an element or are equal |
| NameScores.TokenSimilarity | src/gym_finder.py:153-176 | the token similarity is in [0, 1], and 0 when either name is empty |
| NameScores.TokenSimilaritySpec | src/gym_finder.py:153-176 | two non-empty names score 1 exactly when their token sets are equal; a score is positive exactly when both names are non-empty and their token sets share a word or are equal |
| NameScores.TokenSimilaritySymmetric | src/gym_finder.py:153-176 | the token similarity does not depend on the order of the names |
| NameScores.TokenSimilarityReflexive | src/gym_finder.py:153-176 | a non-empty name is fully similar to itself |
| NameScores.MentionsAnySpec | src/gym_finder.py:201-202 | `any(term in name ...)` holds exactly when some term is a substring of the name |
| NameScores.AnyGroupSharedSpec | src/gym_finder.py:200-205 | the group loop succeeds exactly when a single group has a term in the first name and a term in the second |
| NameScores.SharesGroupSymmetric | src/gym_finder.py:439-444 | sharing a group does not depend on the order of the names |
| NameScores.SemanticSimilarity | src/gym_finder.py:178-207 | the semantic similarity is 0 or 0.8 |
| NameScores.SemanticSimilaritySpec | src/gym_finder.py:178-207 | the semantic similarity is 0.8 exactly when both names are non-empty and one discipline group has a term in each lower-cased name |
| NameScores.SemanticSimilaritySymmetric | src/gym_finder.py:178-207 | the semantic similarity is symmetric |
| NameScores.ChainMatch | src/gym_finder.py:410-446 | the chain bonus is 0 or 0.2 |
| NameScores.ChainMatchSpec | src/gym_finder.py:410-446 | the chain bonus is 0.2 exactly when both names are non-empty and one chain has a variant in each lower-cased name |
| NameScores.ChainMatchSymmetric | src/gym_finder.py:410-446 | the chain bonus is symmetric |
| AuxScores.YelpTier | src/gym_finder.py:138-145 | a Yelp price maps to a Google tier between 1 and 4, if at all |
| AuxScores.YelpTierIsDollarCount | src/gym_finder.py:138-145 | a Yelp price has tier n exactly when it is n dollar signs, 1 <= n <= 4 |
| AuxScores.ComparePriceRanges | src/gym_finder.py:132-151 | the price score is 0, 0.5 or 1; it is 0 when either side is missing; it is 1 exactly for "$"×n against tier n, and 0.5 exactly for "$"×n against tier n ± 1 |
| AuxScores.AnyCategoryMatchesSpec | src/gym_finder.py:125-128 | the category loop succeeds exactly when a category word occurs in the Yelp text and one of its accepted types is among the Google types |
| AuxScores.CompareCategories | src/gym_finder.py:106-130 | the category score is 0 or 0.8; it is 0.8 exactly when both inputs are non-empty and a category word of the table occurs in the lower-cased Yelp categories with one of its types among the lower-cased Google types |
| AuxScores.AnyOpenAllDay | src/gym_finder.py:97 | the 24-hour test is true exactly when a description says "24 hours" or "open 24" and every description before it is a string; a non-string reached first raises AttributeError; a list of strings never raises |
| AuxScores.CompareBusinessHours | src/gym_finder.py:72-104 | the hours score is in [0, 0.3]; it is 0 unless the hours are a non-empty dict; it is positive exactly when periods or descriptions are truthy or "openNow" is present; periods give at least 0.15, "openNow" at least 0.10; only a truthy description value can raise |
| AuxScores.CompareBusinessHoursCapped | src/gym_finder.py:85-104 | periods, an open-now flag and a week of descriptions with a 24-hour day reach the 0.3 cap exactly |
| Matcher.NameSimilarity | src/gym_finder.py:496-503 | the name signal is the largest of the raw ratio, the cleaned-name ratio, the token similarity of the raw lower-cased names and the semantic similarity of the cleaned names; it is in [0, 1] |
| Matcher.NameSimilaritySymmetric | src/gym_finder.py:496-503 | with a symmetric ratio, the name signal is symmetric |
| Matcher.NameBoost | src/gym_finder.py:537-543 | exactly one boost applies: 0.05 exactly above 0.9, nothing exactly at or below 0.7, otherwise 0.03 or 0.02 |
| Matcher.NameBoostMonotone | src/gym_finder.py:537-543 | a more similar name never earns a smaller boost |
| Matcher.StreetNumber | src/gym_finder.py:514-515 | `^\d+` finds a non-empty prefix of digits exactly when the address starts with a digit |
| Matcher.StreetName | src/gym_finder.py:521-522 | the street name found by `\d+\s+([^,]+)` is non-empty and comma-free |
| Matcher.StreetNameOfAddress | src/gym_finder.py:514-522 | for "NUMBER STREET" with a comma-free street, the street number is NUMBER and the street name is STREET |
| Matcher.StreetAt | src/gym_finder.py:521-522 | a match of `\d+\s+([^,]+)` at a given start yields a non-empty, comma-free group |
| Matcher.StreetAtBacktracks | src/gym_finder.py:521-522 | after a number and two spaces followed by a comma or the end, `\s+` gives one space back and the group is " "; with one space the match fails |
| Matcher.AddressBonus | src/gym_finder.py:506-528 | the address bonus is in [0, 0.28], 0 when either address is empty, at least 0.2 × the address ratio otherwise, and 0.05 more when both addresses start with the same street number |
| Matcher.AddressBonusSymmetric | src/gym_finder.py:506-528 | with a symmetric ratio, the address bonus is symmetric |
| Matcher.PhoneBonus | src/gym_finder.py:530-535 | the phone bonus is 0 or 0.15, and 0.15 exactly for equal numbers of at least ten digits |
| Matcher.PairScore | src/gym_finder.py:489-547 | the confidence of a pair is in [0, 0.88] and at least 0.3 × the name signal plus its boost |
| Matcher.ScoreOf | src/gym_finder.py:496-547 | the same bounds for the score of already-normalized fields |
| Matcher.Combine | src/gym_finder.py:503-547 | the weighted sum `0.3 * name + address + phone + boost + 0.5 * chain` lies in [0, 0.88] and is at least the name term and its boost |
| Matcher.CombineMonotone | src/gym_finder.py:496-547 | raising the name similarity, the address bonus, the phone bonus or the chain bonus, one or several at once, never lowers the confidence; the name boost follows the name similarity |
| Matcher.ScoreOfPhone | src/gym_finder.py:529-534 | a Yelp phone of ten digits or more that the Google side repeats is worth exactly 0.15 more than any other Google phone; a shorter Yelp phone never changes the score |
| Matcher.PairScorePhoneMatch | src/gym_finder.py:529-534 | two listings whose phones normalize to the same number of ten or more digits score exactly 0.15 more than the same pair without a Google phone |
| Matcher.PairScoreAddressNeverHurts | src/gym_finder.py:506-527 | a Yelp address never lowers the score: the same pair with an empty Yelp address scores no more |
| Matcher.ScoreOfSymmetric | src/gym_finder.py:496-547 | with a symmetric ratio, swapping every Yelp field with its Google counterpart leaves the score unchanged |
| Matcher.PairScoreSymmetric | src/gym_finder.py:489-547 | with a symmetric ratio, the confidence of a pair does not depend on which record is the Yelp one |
| Matcher.SameNameReachesThreshold | src/gym_finder.py:463-504 | two records with the same non-empty name reach the default threshold 0.35 |
| Matcher.FuzzyMatchGyms | src/gym_finder.py:463-579 | every Yelp record appears once, in input order: merged with its greedy pick, with a confidence between the threshold and 0.88, or tagged Yelp-only; then come the unclaimed Google records in input order; the output has \|yelp\| + \|google\| − matches records |
| Greedy.BestIndex | src/gym_finder.py:480-553 | the inner loop picks an unclaimed index whose score is positive and at least the threshold, with the greatest score and the earliest index on ties; it picks nothing exactly when there is no such index |
| Greedy.PickIsBest | src/gym_finder.py:549-553 | a pick is unclaimed, clears the threshold and is no worse than any other unclaimed candidate, earliest on ties; nothing is picked exactly when no unclaimed record clears both the threshold and 0 |
| Greedy.Claimed | src/gym_finder.py:559 | the claimed set holds exactly the picked Google indices |
| Greedy.Assign | src/gym_finder.py:470-559 | one entry per Yelp record, in order; every pick is a Google index outside the set claimed at the start |
| Greedy.AssignIsGreedy | src/gym_finder.py:470-559 | each Yelp record takes the best pick among the Google records not claimed by the records before it |
| Greedy.AssignClaimsOnce | src/gym_finder.py:480-482 | every pick is a Google index that was not claimed at the start and clears the threshold, and no Google index is claimed twice |
| Greedy.ClaimedCount | src/gym_finder.py:559 | with distinct claims, there are as many claimed indices as matched Yelp records |
| Greedy.Unclaimed | src/gym_finder.py:570-571 | every index listed for the Google-only pass is a Google index not claimed |
| Greedy.UnclaimedSpec | src/gym_finder.py:570-571 | the Google-only pass lists every unclaimed Google index, in increasing order |
| Greedy.UnclaimedCount | src/gym_finder.py:569-575 | the unclaimed indices number \|google\| less the claimed ones |
| Greedy.UnclaimedSame | src/gym_finder.py:570-571 | the Google-only pass depends only on which indices below \|google\| are claimed |
| Greedy.MatchAndMerge | src/gym_finder.py:470-575 | for any score function: each Yelp record in order, merged with its pick at that pick's score or tagged Yelp-only; then the unclaimed Google records; length \|yelp\| + \|google\| − matches |
| Greedy.GoogleOnly | src/gym_finder.py:569-575 | each remaining Google record is tagged with confidence 0 and the single source "Google Places" |
| Records.Unmatched | src/gym_finder.py:562-566 | an unmatched record keeps its fields, has match confidence 0 and a single source |
| Records.MergeGymRecords | src/gym_finder.py:581-606 | name and url come from Yelp; phone and price come from Yelp unless "N/A", so they are "N/A" only when both are; rating comes from Google unless "N/A"; address is the longer one, Yelp's on a tie; review count is the larger one; source and sources are fixed; place_id, location, types and open_now come from Google and instagram and membership_fee from Yelp, each with the code's default |
| Records.MergeExtrasStable | src/gym_finder.py:596-603 | merging the provider-specific entries again with the same Google record changes nothing |
| Records.MergeAgainIsStable | src/gym_finder.py:585-604 | merging a merged record again with the same Google record gives the same gym |
| Instagram.DetectInstagramHandle | gym_finder.py:87-100 | the handle starts with "@" and is never "N/A"; the characters after "@" are the name's ASCII letters and digits lower-cased, and only those |
| Instagram.CandidateHandles | src/gym_finder.py:452-457 | there are always four candidates, so the "N/A" fallback is never reached |
| Instagram.HandleCharacters | src/gym_finder.py:451 | `HandleBase`, the `[^a-zA-Z0-9]` removal after lower-casing, leaves only `[a-z0-9]` |
| Instagram.HandleOfCons | src/gym_finder.py:451 | each character of the name contributes its lower-case form when that is a letter or digit, and nothing otherwise, in order |
| Instagram.PunctuationIsDropped | src/gym_finder.py:451 | inserting a character that is no letter or digit anywhere in the name leaves the handle unchanged |
| Instagram.UrlIsIgnored | src/gym_finder.py:448-461 | the URL argument has no effect |
| Instagram.HandleIsStable | src/gym_finder.py:451-461 | the handle of a handle's own text is that handle |
| Instagram.HandleIgnoresCase | src/gym_finder.py:451 | a name and its lower-case spelling give the same handle |
| Dedup.Split | src/run_gym_search.py:459-460 | `split("_")` gives at least one field, and no field contains an underscore |
| Dedup.Signature | src/run_gym_search.py:448-452 | the signature is the first 20 characters of the normalized name, "_", and the first 30 of the normalized address, since the extra `lower()` changes nothing; it has at most 51 characters and no upper-case letter |
| Dedup.JoinSplit | src/run_gym_search.py:459-460 | joining the fields with underscores gives the text back |
| Dedup.SplitJoined | src/run_gym_search.py:452-460 | the fields of NAME_ADDRESS are the fields of NAME followed by those of ADDRESS |
| Dedup.SignatureFields | src/run_gym_search.py:452-460 | the signature has at least two fields; the first is the name's first field; an underscore in the name makes the second field a piece of the name; without one, the fields are the name and the address's first field |
| Dedup.SimilarSymmetric | src/run_gym_search.py:458-461 | the duplicate test does not depend on which signature is the new one |
| Dedup.SimilarNeedsDistinctChars | src/run_gym_search.py:455-461 | `Similar`, the duplicate test, needs more than 3 distinct characters in both names and more than 5 in both addresses; a signature resembles itself exactly when it has that many |
| Dedup.DedupMetroGyms | src/run_gym_search.py:432-469 | the empty list gives the empty list; the result is no longer than the input; the first record is always kept |
| Dedup.DedupIsSubsequence | src/run_gym_search.py:443-469 | the result is the input with some records left out, in input order |
| Dedup.DedupFromSnoc | src/run_gym_search.py:446-467 | one more record is appended exactly when no remembered signature resembles its own, for any key and resemblance test |
| Dedup.DropRule | src/run_gym_search.py:454-467 | a record is dropped exactly when some kept record's signature shares more than 3 characters in the first field and more than 5 in the second; with nothing kept yet, the record is kept |
| Dedup.DedupIdempotent | src/run_gym_search.py:446-467 | deduplicating twice gives what deduplicating once gives |
| MetroStats.SuccessfulLists | src/run_gym_search.py:379 | there are no successful searches exactly when no result has a gym list |
| MetroStats.MetroStatisticsOf | src/run_gym_search.py:376-429 | the error entry exactly when no result has a gym list; otherwise the processed count is the number of results, the area name and ZIP total are copied, and the successful and failed counts are at most the results |
| MetroStats.StatisticsCounts | src/run_gym_search.py:379-407 | the successful count is the number of gym lists; the total is the sum of their lengths; the three source buckets sum to at most the total |
| MetroStats.SourceCountsBounded | src/run_gym_search.py:399-407 | the source buckets are disjoint, so together they count at most every gym |
| MetroStats.MergedSourceCountsAsMerged | src/run_gym_search.py:402-405 | a "Merged (Yelp + Google)" record counts as Merged and never as Yelp |
| MetroStats.CountSourcesTotal | src/run_gym_search.py:399-407 | `BucketOf`'s if/elif chain counts every gym whose source names Merged, Yelp or Google in exactly one bucket |
| MetroStats.CountSourcesAppend | src/run_gym_search.py:400-407 | counting one search's gyms after another's adds the counts bucket by bucket |
| MetroStats.MergeRateIsShare | src/run_gym_search.py:423 | the merge rate is the merged count in percent of all gyms, and 0 when there are none |
| MetroStats.AverageConfidenceBounds | src/run_gym_search.py:390-396 | the average confidence is 0 when no gym has a positive confidence, and otherwise lies in (0, top] when every confidence is at most top |
| MetroStats.MinMaxBounds | src/run_gym_search.py:412-413 | the maximum and the minimum are counts of the list and bound every count |
| MetroStats.MeanOfCounts | src/run_gym_search.py:411-413 | the mean of the counts lies between their minimum and maximum |
| MetroStats.PerZipBounds | src/run_gym_search.py:410-413 | the average gyms per successful ZIP code lie between the minimum and the maximum, both of which are actual counts |
| MetroStats.TestBatchStatistics | tests/test_batch_processing.py:104-141 | the test's batch gives 3 processed, 2 successful, 1 failed, 3 gyms, 1 merged, a merge rate of 100/3 and an average confidence of 0.85 |
| PyValue.Truthy | src/yelp_service.py:41 | a value is false exactly when it is None, False, a zero, or an empty string, list or dict |
| PyValue.Lookup | src/yelp_service.py:45-58 | `dict.get` finds a value exactly when some entry has the key |
| PyValue.LookupLastWins | src/yelp_service.py:94 | a key that is present yields the value of its last entry, as `json` decoding keeps the last of repeated keys |
| PyValue.GetSpec | src/yelp_service.py:63-65 | `d.get(key, default)` is the default when no entry has the key, and otherwise the value of the key's last entry |
| PyValue.DictKeys | src/gym_finder.py:97 | iterating a dict visits each of its keys exactly once |
| PyValue.DictKeysInOrder | src/gym_finder.py:97 | the keys come in first-insertion order: a key set again later keeps its first place |
| PyValue.Str | src/yelp_service.py:63-69 | `str()` of a string is the string itself; of a list, text in brackets; of a dict, text in braces |
| PyValue.Repr | src/yelp_service.py:63-69 | `repr` of a string is quoted with ' or " and has only printable characters; of a list, text in brackets; of a dict, text in braces |
| PyValue.EscapeChar | src/yelp_service.py:63-69 | a character inside quotes is written as itself exactly when it is printable and neither a backslash nor the quote; otherwise as an escape of printable characters |
| PyValue.HexRoundTrip | src/yelp_service.py:63-69 | a code below 16^w, written as w lower-case hex digits, reads back as itself |
| PyValue.UnescapeEscape | src/yelp_service.py:63-69 | undoing the escapes of any text gives the text back |
| PyValue.ReprStringRoundTrip | src/yelp_service.py:63-69 | for every string, `repr` is printable and reading it back between its quotes gives the string |
| PyValue.ReprDictByLookup | src/yelp_service.py:63-69 | a dict's `repr` depends only on its keys in iteration order and the value each ended up with |
| PyValue.ReprRepeatedKey | src/yelp_service.py:63-69 | a repeated key is shown once, with its last value |
| PyValue.ReprRepeatedKeyExample | src/yelp_service.py:63-69 | `str()` of the decoded `{"a": 1, "a": 2}` is "{'a': 2}" |
| PyValue.ReprNoBreakSpace | src/yelp_service.py:63-69 | `str()` of a list holding a no-break space is "['\\xa0']" |
| Sanitize.SanitizeRating | src/yelp_service.py:54-56 | a rating is kept when None or a number (a bool included) and becomes "N/A" otherwise |
| Sanitize.SanitizeCount | src/yelp_service.py:58-60 | a review count is kept when it is a non-negative int and becomes 0 otherwise; a bool is kept as 1 or 0 |
| Sanitize.StrStrip | src/yelp_service.py:63 | `str(v).strip()` is stripped, and is the stripped text for a string |
| Sanitize.StrAll | src/yelp_service.py:64 | `str(addr) for addr in display_address` keeps the length and converts each item with `str` |
| Yelp.ValidateBusiness | src/yelp_service.py:19-71 | None exactly for a non-dict or a falsy name; otherwise source "Yelp", a non-negative review count, a rating that is None, a number or "N/A", stripped text fields, and the address joined from the display lines; the same definition models the identical copy in yelp_service.py |
| Yelp.DisplayAddress | src/yelp_service.py:45-51 | the display lines are the `display_address` list when location is a dict holding a list; there are none when location is not a dict, or when its `display_address` is missing or not a list |
| Yelp.BlankNameIsKeptEmpty | yelp_service.py:41-63 | a whitespace-only name is truthy, so it is accepted and stored as "" |
| Yelp.AddressOfTwoLines | src/yelp_service.py:45-64 | two display lines are joined with ", " |
| Yelp.MalformedCountIsZero | yelp_service.py:58-60 | a review count that is not a non-negative int is stored as 0 |
| Yelp.ValidBusinesses | src/yelp_service.py:106-110 | no more records than businesses; every kept record is the validation of some business, and every business that validates is kept |
| Yelp.ValidBusinessesAppend | src/yelp_service.py:106-110 | filtering a concatenation filters each part, in order |
| Yelp.ValidBusinessesKeepsAll | src/yelp_service.py:106-110 | when every business validates, the result is their validations, in order |
| Yelp.SearchResults | src/yelp_service.py:97-112 | a body that is not a dict, or whose "businesses" is not a list, gives no records; otherwise the validated businesses in order |
| Places.ConvertPriceLevel | google_places_service.py:149-162 | a falsy level gives "N/A"; the five levels give "Free", "$" … "$$$$"; any other hashable value gives "N/A"; a truthy list or dict raises TypeError |
| Places.MapPriceLevel | google_places_service.py:164-176 | a falsy level gives None; tier n exactly for the n-th level; a truthy list or dict raises TypeError |
| Places.PriceTablesAgree | google_places_service.py:149-176 | both helpers raise on the same inputs and give "N/A" and None on the same inputs; tier n >= 1 displays as n dollar signs and tier 0 as "Free" |
| Places.MapsLink | google_places_service.py:72 | the fallback url is the maps prefix followed by the place id |
| Places.Types | google_places_service.py:76 | the stored types are always a list, and are the place's own list when it has one |
| Places.PlaceExtrasLookup | google_places_service.py:74-81 | each key of the extras finds its value: the stripped id as `place_id`; `lat` and `lng` read from `location`, a dict or else `{}`; `types` as a list; `open_now` as the opening hours' `openNow`; the hours themselves as `business_hours`; the stripped `websiteUri` as `website`; the maps link with the place id as `google_url`; the tier as `price_level` |
| Places.PlaceRecord | google_places_service.py:65-82 | a built record has source "Google Places (New)", a non-negative review count, a rating that is None, a number or "N/A", stripped text fields, and the maps link as url when there is no website |
| Places.ValidatePlace | google_places_service.py:19-82 | None exactly for a non-dict or a place without a dict displayName with truthy text; TypeError exactly when such a place has a truthy list or dict price level; otherwise the record above, with price and tier from the two tables |
| Places.ValidatedPriceAgrees | google_places_service.py:71-81 | in a validated record, the types are a list, tier n >= 1 goes with n dollar signs, tier 0 with "Free", and no tier with "N/A" |
| NewPlaces.TableGet | new_google_places.py:88 | a lookup finds nothing exactly when no row has the key, and otherwise the value of a row with that key |
| NewPlaces.ConvertGooglePriceLevelNew | new_google_places.py:75-88 | a falsy level gives "N/A"; a truthy list or dict raises; a listed level gives its display text |
| NewPlaces.MapPriceLevelNew | new_google_places.py:91-103 | a falsy level gives None; a truthy list or dict raises; a tier is given only for a listed level |
| NewPlaces.TableRows | new_google_places.py:81-102 | row n of each table holds the n-th level with tier n and its display text |
| NewPlaces.TableLookups | new_google_places.py:75-103 | the n-th level finds tier n and its display text, and any other string finds nothing |
| NewPlaces.NewHelpersAgreeWithService | new_google_places.py:75-103 | both helpers agree with the service's `convert_price_level` and `map_price_level` on every input |
| NewPlaces.NewTablesAgree | new_google_places.py:75-103 | tier n >= 1 displays as n dollar signs, tier 0 as "Free", and no tier exactly when the display is "N/A" |
| Enrichment.Hits | google_places_service.py:253-254 | a keyword count is at most the number of keywords, and 0 exactly when no keyword occurs |
| Enrichment.ReviewText | google_places_service.py:249 | the text is lower-case, and AttributeError is raised exactly when the review or its "text" is not a dict or the inner text is not a string |
| Enrichment.ReviewScore | google_places_service.py:250-260 | no score for an empty text or no hits; otherwise a score in [-1, 1] that is positive exactly when praise outnumbers complaints, 1 exactly without complaints and −1 exactly without praise |
| Enrichment.Ratio | google_places_service.py:258 | (p − n)/(p + n) lies in [-1, 1], is positive exactly when p > n, 1 exactly when n = 0 and −1 exactly when p = 0 |
| Enrichment.ReviewResult | google_places_service.py:249-260 | a review raises exactly when its text cannot be read |
| Enrichment.Collect | google_places_service.py:248-260 | the loop succeeds exactly when no review raises, keeps at most one score per review, and otherwise raises a review's error |
| Enrichment.ScoresInRange | google_places_service.py:248-260 | every collected score lies in [-1, 1] |
| Enrichment.Analyzed | google_places_service.py:248 | `reviews[:5]` is the first five reviews, or all of them when there are fewer |
| Enrichment.Sentiment | google_places_service.py:236-262 | falsy reviews give 0; a non-empty string raises AttributeError |
| Enrichment.SentimentWith | google_places_service.py:236-262 | for any per-review scorer: falsy reviews give 0; a truthy string raises AttributeError and any other truthy non-list TypeError; a list whose first five reviews all score without raising gives a value |
| Enrichment.SentimentRaises | google_places_service.py:236-262 | the sentiment raises exactly for truthy non-list reviews or when one of the first five reviews has an unreadable text |
| Enrichment.SentimentInRange | google_places_service.py:236-262 | the sentiment lies in [-1, 1] |
| Enrichment.SentimentReadsFirstFive | google_places_service.py:248 | reviews after the fifth change nothing, even ones that would raise |
| Enrichment.NoHitsIsNeutral | google_places_service.py:250-262 | reviews that hit no keyword give sentiment 0 |
| Enrichment.OnePraiseIsPositive | google_places_service.py:253-262 | one review with praise and no complaint gives sentiment 1 |
| Enrichment.Completeness | google_places_service.py:264-286 | the completeness of a dict lies in [0, 0.8]; a non-dict raises AttributeError |
| Enrichment.CapNeverBinds | google_places_service.py:269-286 | the eight weights add up to exactly the 0.8 cap, so the score is the sum of the weights of the present fields |
| Enrichment.CompletenessMonotone | google_places_service.py:264-286 | the score never decreases when another field becomes present |
| Enrichment.CompletenessZero | google_places_service.py:264-286 | the score is 0 exactly when none of the eight fields is present |

## Left out

- The HTTP search and details calls of both services, `search_google_places_gyms_new`, `zipcode_to_coords` and `geocode_address`: they are network calls. Only the validate-and-filter step of the Yelp `search_gyms` is modelled, applied to the decoded body.
- `calculate_distance` and `estimate_coordinates_from_address`: trigonometry and a hard-coded coordinate table, which the matcher does not call.
- `SequenceMatcher.ratio`: it is the parameter `ratio`, assumed to lie in [0, 1] and, for the symmetry lemmas, to be symmetric. The street-name bonus compares two street names with it.
- `urlparse`: the model follows the steps `extract_domain` depends on. It drops leading control characters and spaces, deletes tabs and newlines, and splits off a scheme. The network location is then the text after "//" up to the first '/', '?' or '#'. An unbalanced '[' or ']' raises ValueError, which gives "". Two further checks of `urlsplit` are not modelled. The first exists only from Python 3.11.4 on: a network location holding both '[' and ']' must enclose an IPv6 or IPvFuture literal, or ValueError is raised. There `extract_domain("http://[abc]/")` gives "", while Normalize.ExtractDomain gives "[abc]", the result of earlier versions. The second is the NFKC check on non-ASCII network locations. The port is never checked, because `extract_domain` reads only `netloc`.
- Regular expressions are written as string functions. `\w`, `\d` and `lower()` are taken on ASCII, so Unicode letters and digits outside ASCII are not modelled. `\s` and `strip()` use Python's full whitespace set.
- `round(confidence, 2)` in the merged record and the float error of the score sums: the merged record keeps the exact real confidence. Floats the sanitizers only pass through are kept as their text.
- Sanitize.SanitizeCount: a bool count passes the code's `isinstance(count, int)` test and is kept as True or False. The model returns a `nat`, so it keeps it as 1 or 0. This applies to every record built with it: Yelp.ValidateBusiness for `review_count`, and Places.PlaceRecord for `userRatingCount`. The value is the same wherever it is compared or added, since True == 1. Only the exported text differs: `True` or `true` instead of `1`.
- AuxScores.ComparePriceRanges: the Google level is taken as an int or missing. A float level compares by equality in Python, so 2.0 against "$$" scores 1.0, and the model has no such input. When the Yelp tier is known, a level that is not a number makes `abs(yelp_level - google_price_level)` raise TypeError. The model does not raise it. The function is not called by the matcher.
- Records.MergeGymRecords: review_count is stored as an int on both sides, so the case where one side's `review_count` is not an int is not modelled.
- The `click.echo` logging, `display_results`, and the CSV and JSON exporters: these are output only.
- The in-place tagging of unmatched input dicts: the model returns tagged copies.
- The orchestration in `src/run_gym_search.py`, run in a thread pool: `run_batch_search`, `run_metro_search`, `export_metro_results` and `run_gym_search`.
- `MetropolitanArea` is defined in `metro_areas.py`, which is not part of this model. Only the four fields that `generate_metro_statistics` copies or counts are modelled.
- MetroStats.MetroStatisticsOf: a gym's `source` and `match_confidence` are taken as a string and a number. A result's `search_info.merged_count` is taken as an int.
- Dedup.DedupMetroGyms: `processed_names` is a Python set. The model keeps the remembered signatures as a list in insertion order. The outcome does not depend on the order, since the loop only asks whether some signature resembles the new one.
- Normalize.NormalizeAddress: idempotence is not claimed and does not hold. "1 str.eet" becomes "1 street" on a first pass and "1 st" on a second, because the period is removed only after the replacements, and the key " street" needs the space in front.
- The compare scorers are not wired into the matcher, as in the code. `compare_review_counts`, which the test suite calls, is not defined in `src/gym_finder.py`.
- The `clean_gym_name` expectations of the test suite are not used, because the code does not strip "gym", "fitness" or "center".
- Matcher.FuzzyMatchGyms: `best_match` is a validated Google record, always a non-empty dict, so its truthiness test always passes.
- PyValue.Repr: the characters `repr` escapes are modelled exactly up to U+00FF. Above that, the model escapes the line and paragraph separators, the format characters listed in `WideNonPrintable`, private-use characters and noncharacters, and takes every other character as printable. Python decides from its Unicode database, so unassigned code points and other format characters it escapes are not modelled. The escape itself is `\xHH`, `\uHHHH` or `\UHHHHHHHH`, as in Python.
- Enrichment.Sentiment: slicing a truthy dict, number or bool raises TypeError in the model. On Python 3.12 and later, slicing a dict raises KeyError instead.
