# RFP technical matcher and pricing calculator

This project models the core of an RFP (request for proposal) triage pipeline. It has two parts.

- **Technical matcher** (`TechnicalAgent`). It splits an RFP text into lines and extracts the requirement lines. The first pass reads the block under the first "scope of supply" / "scope of work" header, up to a blank, "testing…" or "general…" line. When that block yields nothing, a fallback pass keeps every line whose lower-cased form contains "cable", or contains "core" together with "sqmm" or "sq mm". Each requirement line is scored against every catalog SKU: 30 points for cores, 30 for the cross-section, 20 for insulation and 20 for material, each when it occurs in the lower-cased line. The positive scores are sorted by descending score with a stable sort, and the first three are kept.
- **Pricing calculator** (`PricingAgent`). `price_item` looks a SKU up in the pricing table and multiplies its material and testing unit costs by the quantity. `price_from_technical_result` prices the first match of every line at quantity one. It emits a placeholder for a line without matches and adds up the costs of the SKUs the table knows. The batch is always labelled "INR".

Modules:

- `Seqs` (`seqs.dfy`): an `Option` type. It also collects the values of a sequence of options and says which position each value comes from.
- `Text` (`text.dfy`): the Python string operations the matcher uses, on `seq<char>`. These are `strip()` over the full `isspace()` set, ASCII `lower()`, `startswith`, the `in` substring test and `splitlines()` with all of its line boundaries.
- `Scope` (`scope.dfy`): the two extraction passes. They are written once over a `LineTests` value that holds the four per-line tests. `Rules` is the source's own tests. Functions specify each pass; the loops are methods proved equal to them.
- `Matching` (`matching.dfy`): the SKU score, the stable descending sort as a function, `[:3]`, and the two loops of `match_specs`.
- `Pricing` (`pricing.dfy`): `price_item` and `price_from_technical_result`.

The SKU catalog and the pricing table are parameters: a `seq<Sku>` and a `map<string, PricingRow>`. The source loads them once in the constructors and never changes them afterwards, so the model has no classes. Costs are `real`.

## Model

| member | source | states |
|---|---|---|
| Text.SplitLinesConcat | backend/agents/technical_agent.py:61 | Concatenated, the lines of `splitlines()` are the text with every line boundary removed, in order. |
| Text.SplitLinesNoBreaks | backend/agents/technical_agent.py:61 | No line produced by `splitlines()` contains a line-boundary character. |
| Text.SplitLinesRebuild | backend/agents/technical_agent.py:61 | The text is exactly its lines, each followed by the boundary that ended it ("\r\n" or one boundary character). Only a last line running to the end of the text has no boundary, and that line is not empty. A lone "\r" is never followed by an empty line ended by "\n". Together with `SplitLinesNoBreaks`, this fixes where the text is cut, including the empty line between two boundaries in a row. |
| Text.SeparatorsRebuild | backend/agents/technical_agent.py:61 | The lines, each followed by its separator, give back the text. |
| Text.SeparatorsAreBoundaries | backend/agents/technical_agent.py:61 | Every separator is a boundary, except an empty one after a non-empty last line. |
| Text.SeparatorsKeepCrLf | backend/agents/technical_agent.py:61 | "\r\n" is one boundary: a lone "\r" separator is never followed by an empty line with separator "\n". |
| Text.StripSlice | backend/agents/technical_agent.py:67 | `strip()` keeps one contiguous slice of the line and removes only whitespace on either side of it. |
| Text.StripIdempotent | backend/agents/technical_agent.py:67 | Stripping a stripped line changes nothing. |
| Text.UpperNeverInLower | backend/agents/technical_agent.py:104-110 | A needle that contains an upper-case letter never occurs in a lower-cased line. |
| Scope.FindHeader | backend/agents/technical_agent.py:66-73 | While `in_scope` is false the loop stops at the first header line, or at the end when there is none. |
| Scope.CollectBlock | backend/agents/technical_agent.py:75-82 | Once in scope, the loop collects the cleaned, non-empty lines up to the first stop line. |
| Scope.CollectSpecLike | backend/agents/technical_agent.py:84-96 | The fallback loop collects the cleaned, non-empty spec-like lines of the whole text. |
| Scope.ScanLines | backend/agents/technical_agent.py:62-98 | The two passes yield the block items, or the fallback items when the block yields none. |
| Scope.ExtractScopeItems | backend/agents/technical_agent.py:54-98 | `_extract_scope_items` applies the two passes, with the source's line tests, to the lines of `splitlines()`. |
| Scope.FirstPassProvenance | backend/agents/technical_agent.py:66-82 | When the block yields items, they are the result. They come in line order from the lines strictly between the first header and the first stop line after it. A line in that range is used exactly when it does not clean to empty. |
| Scope.FallbackProvenance | backend/agents/technical_agent.py:84-96 | When the block yields nothing, the fallback rescans the whole text. A line is used exactly when it is spec-like and cleans to something non-empty, and items keep line order. |
| Scope.ScopeBlock | backend/agents/technical_agent.py:66-82 | A first header followed by N ≥ 1 lines that are neither stop lines nor clean to empty, then a stop line or the end of the text, yields exactly those N lines cleaned, in order. For N = 0 the block yields nothing and the fallback decides (`Scope.EmptyBlockFallsBack`). |
| Scope.EmptyBlockFallsBack | backend/agents/technical_agent.py:66-96 | When every line between the first header and the next stop line (or the end of the text) cleans to empty, the block yields nothing and the result is the fallback over the whole text. This includes a stop line directly after the header. |
| Scope.NoHeaderCableLine | backend/agents/technical_agent.py:84-96 | Without a header the fallback alone decides, and the cleaned form of every line whose lower-cased form contains "cable" is among the items. |
| Scope.SpecLikeLineKept | backend/agents/technical_agent.py:89-96 | A line the fallback selects never cleans to empty, because its stripped form holds the "c" of "core" or "cable". So the `if stripped` test never drops a fallback line. |
| Scope.CleanKeeps | backend/agents/technical_agent.py:78-81 | When the stripped line holds a character that is neither whitespace nor "-", "•" or a space, the item is not empty. |
| Scope.CleanIsStripped | backend/agents/technical_agent.py:78-79 | A cleaned line has no whitespace at either end. |
| Scope.ScopeItemsShape | backend/agents/technical_agent.py:81-82 | Every extracted item is non-empty and is its own `strip()`. |
| Scope.BulletedItemStart | backend/agents/technical_agent.py:78-79 | For a bulleted line, the item does not start with "-", "•" or a space, provided other whitespace does not follow the bullet run. |
| Scope.CleanCanExposeBullet | backend/agents/technical_agent.py:78-79 | "-\t-x" cleans to "-x": the second `strip()` can expose a bullet that a tab hid. |
| Scope.BulletedLineNeverStops | backend/agents/technical_agent.py:75-78 | The stop test runs before bullets are removed, so a bulleted line such as "- Testing …" never ends the block. |
| Matching.Score | backend/agents/technical_agent.py:100-116 | The score lies between 0 and 100, and it is 0 exactly when none of the four attributes occurs in the line. |
| Matching.ScoreMatch | backend/agents/technical_agent.py:100-116 | The step-by-step accumulation of `_score_match` computes `Score`. |
| Matching.ScoreWeights | backend/agents/technical_agent.py:107-114 | Each attribute independently adds its weight (30, 30, 20, 20) when it occurs, whatever the other attributes do. |
| Matching.ScoreIgnoresCase | backend/agents/technical_agent.py:104-114 | Neither the case of the line nor the case of the insulation and material values changes the score. |
| Matching.UppercaseCoresNeverMatch | backend/agents/technical_agent.py:107-108 | A cores value containing an upper-case letter never adds points, because it is not lower-cased. |
| Matching.UppercaseAreaNeverMatches | backend/agents/technical_agent.py:109-110 | The same holds for a cross-section value containing an upper-case letter. |
| Matching.FromSku | backend/agents/technical_agent.py:127-136 | A candidate carries its score and copies all six fields of its SKU unchanged. |
| Matching.ScoredProvenance | backend/agents/technical_agent.py:124-137 | The scored list holds, in catalog order, one candidate for each SKU that scores above zero and none for the others. |
| Matching.SortByScorePermutes | backend/agents/technical_agent.py:139 | Sorting returns a permutation of its input. |
| Matching.SortedMembers | backend/agents/technical_agent.py:139 | Sorting neither adds nor drops candidates. |
| Matching.SortByScoreDescending | backend/agents/technical_agent.py:139 | The sorted list does not increase by score. |
| Matching.SortByScoreStable | backend/agents/technical_agent.py:139 | Within each score, the sorted list keeps the input's order. |
| Matching.SortByScoreIsStableSort | backend/agents/technical_agent.py:139 | A list is the result of `sorted(..., reverse=True)` by score exactly when it is non-increasing and keeps the input's order within each score. Both directions are proved. |
| Matching.StableOrderUnique | backend/agents/technical_agent.py:139 | Two non-increasing lists with the same order within every score are equal. |
| Matching.Take3 | backend/agents/technical_agent.py:139 | `[:3]` is a prefix of length min(3, n). |
| Matching.TopMatchesBounds | backend/agents/technical_agent.py:124-139 | A line has at most three matches, each scoring between 1 and 100. |
| Matching.TopMatchesOrdered | backend/agents/technical_agent.py:139 | The matches do not increase by score and are the first min(3, n) of the sorted scored list. |
| Matching.TopOfSorted | backend/agents/technical_agent.py:139 | A candidate is either among the first three after sorting, or three candidates scoring at least as much are. |
| Matching.TopMatchesAreBest | backend/agents/technical_agent.py:124-139 | A SKU scoring above zero is either among the matches, or there are three matches, each scoring at least as much. |
| Matching.FirstOfSorted | backend/agents/technical_agent.py:139 | The top three are empty only for empty input, and the first of them has the highest score. |
| Matching.FirstMatchIsBest | backend/agents/technical_agent.py:124-139 | A line has a match exactly when some SKU scores above zero, and the first match's score is the maximum over the catalog. |
| Matching.ScoreCatalog | backend/agents/technical_agent.py:123-137 | The inner loop builds the scored list. |
| Matching.MatchItems | backend/agents/technical_agent.py:120-146 | The outer loop yields one result per item, in order, each pairing the item with its top matches. |
| Matching.MatchSpecs | backend/agents/technical_agent.py:118-148 | `match_specs` yields one result per extracted item, in order, each pairing the item with its top matches. |
| Pricing.PriceItem | backend/agents/pricing_agent.py:50-76 | An unknown SKU gives the "not found" record carrying the requested id and "No pricing available". A known SKU gives the row's id, currency and unit costs and the quantity. Its material total is the base material cost times the quantity, its testing total the testing cost times the quantity, and its total their sum. The quantity defaults to 1.0. |
| Pricing.PriceItemLinear | backend/agents/pricing_agent.py:61-64 | A known SKU's total is the quantity times the sum of its unit costs, so it is additive in the quantity. |
| Pricing.PriceItemNonNegative | backend/agents/pricing_agent.py:61-64 | With a non-negative quantity and non-negative unit costs, every total is non-negative. |
| Pricing.PriceItemEchoesId | backend/agents/pricing_agent.py:54-67 | For a table keyed by each row's own id, the answer carries the requested id in both the found and not-found cases. |
| Pricing.PriceFromTechnicalResult | backend/agents/pricing_agent.py:78-114 | The loop builds the priced entries of all lines in order. The grand total is the sum of their found costs, and the currency is "INR". |
| Pricing.BatchShape | backend/agents/pricing_agent.py:83-108 | There is one entry per input line, in order, each carrying its line's text. |
| Pricing.UnmatchedLine | backend/agents/pricing_agent.py:87-94 | A line without matches gives the placeholder ("-", "-", no pricing) and adds nothing to the total. |
| Pricing.TopOneOnly | backend/agents/pricing_agent.py:96-108 | Only the first match is priced, at quantity one, and its id and score are reported. The other matches do not affect the entry. |
| Pricing.FoundSumAppend | backend/agents/pricing_agent.py:100-101 | The running total over two runs of entries is the sum of their totals. |
| Pricing.GrandTotalFromRows | backend/agents/pricing_agent.py:81-101 | The grand total sums, over the lines whose first match's SKU the table knows, that SKU's material plus testing unit cost. Other lines add nothing. |
| Pricing.GrandTotalNonNegative | backend/agents/pricing_agent.py:81-101 | With non-negative unit costs, the grand total is non-negative. |
| Pricing.LinesCostNonNegative | backend/agents/pricing_agent.py:81-101 | With non-negative unit costs, the per-line costs sum to a non-negative value. |
| Pricing.GrandTotalAppend | backend/agents/pricing_agent.py:83-108 | Pricing two batches of lines one after the other concatenates their entries and adds their grand totals. |
| Pricing.PriceAllAppend | backend/agents/pricing_agent.py:83-108 | Pricing a concatenation of lines gives the concatenation of the entries. |
| Pricing.MatchedLineScore | backend/agents/pricing_agent.py:87-106 | For a matcher result, the reported score is the highest score any catalog SKU reaches for the line. The placeholder appears exactly when no SKU scores above zero. |

## Left out

- `_project_root`, `_load_skus`, `_load_pricing` and the constructors read CSV files. The model leaves this file I/O out: the catalog and the pricing table are parameters. Skipping malformed pricing rows is part of that loading.
- `str.lower()` is modelled for ASCII letters only. Python also lower-cases non-ASCII letters, and a few of them change the length of the string. `Text.UpperNeverInLower`, `Matching.UppercaseCoresNeverMatch` and `Matching.UppercaseAreaNeverMatches` speak about ASCII upper-case letters.
- Python floats are modelled as `real`. Rounding is not modelled, so `Pricing.PriceItemLinear` holds exactly for reals and only up to rounding for floats.
- The `.get` defaults of `price_from_technical_result` are not modelled: `"items"`, `"rfp_item"`, `"top_matches"`, `"sku_id"` and `"score"`. Its input is the `MatchResult` sequence `match_specs` produces, where every key is present. The `{"items": …}` wrapper is left out too.
- The `found` flag of `price_item`'s dictionary is the constructor of `PriceInfo`: `Found` or `NotFound`.
- The first-pass `in_scope` loop (technical_agent.py:66-82) is written as two loops, `FindHeader` and `CollectBlock`. The fallback loop (technical_agent.py:86-96) is `CollectSpecLike`, and `ScanLines` joins them. The `continue` on the header line means collection starts at the next line. The `break` on a stop line is the loop guard of `CollectBlock`.
- The two nested loops of `match_specs` are written as two methods, `MatchItems` and `ScoreCatalog`.
- `sorted(..., key=score, reverse=True)` is a library call, so it is modelled as a function, a stable insertion sort, and not as a loop. `Matching.SortByScoreIsStableSort` shows it is the only stable descending order.
- Scope.BulletedItemStart: the item of a bulleted line is proved not to start with a bullet or a space only when the text after the bullet run does not start with other whitespace. In general it is false: `lstrip("-• ")` stops at a tab, and the later `strip()` can expose another bullet (`Scope.CleanCanExposeBullet`).
- The batch currency is always "INR" (`Pricing.BatchCurrency`), while each `PriceInfo` carries its row's own currency. The model keeps this inconsistency of the source.
