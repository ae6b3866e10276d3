# Bill extraction core, modelled in Dafny

This project models the part of the bill-extraction service that turns OCR
output into a structured bill:

- it groups word tokens into text lines (`ocr_image_with_boxes`, the part after the OCR call);
- it reads amounts with the amount pattern (`AMOUNT_RE`, `parse_amount`);
- it builds line-item candidates and removes duplicates by box overlap and name similarity
  (`iou`, `dedupe_items`, `extract_line_items_from_lines`);
- it detects invoice totals and subtotals by keyword (`find_totals`);
- it accumulates the pages of a bill and reconciles the detected invoice total with the
  sum of the item amounts (`extract_bill_data`).

Modules:

- `Wrappers` holds `Option` and the appended-when-present helper `Somes`.
- `Text` stands in for the Python string built-ins (`strip`, `lower`, `isdigit`, `int`,
  `str`, `join`, `in`).
- `AmountPattern` writes the two regular expressions as scanners.
- `OcrUtils` holds token filtering, sorting and line grouping.
- `Extractor` holds IoU, deduplication, candidates and totals.
- `BillData` holds the page loop and the reconciliation.

Amounts, rates and quantities are exact integer hundredths: `12.50` is `1250`.
So the `< 0.01` test of `dedupe_items` becomes `< 1`, and `< 1.0` becomes `< 100`.
IoU is an exact `real`. The fuzzy name score (`fuzz.token_sort_ratio`) is a parameter
`sim` of type `(string, string) -> Score`, with `Score` in 0..100.

The loops of the source are methods with loop invariants:

- `FilterTokens` and `GroupLines` (the word filter and the grouping pass);
- `DedupeItems`, `CollectCandidates`, `ScanTotalKeywords`, `ScanSubtotalKeywords` and `FindTotals`;
- `CleanPage` and `AccumulatePages` (the page loop).

Each method is proved equal to a function of its input. The properties are then lemmas
about those functions.

In `parse_amount` the pattern `AMOUNT_RE` is searched in the text after every comma has
been removed (`app/extractor.py:12`). There the grouped-thousands branch never sees a
comma, and a run of four or more digits matches only its first three digits, without
decimals. The model follows the code: `ParseGroupedThousands` proves that `"1,250.00"`
reads as `125.00`, not `1250.00`. The substitution `AMOUNT_RE.sub('', ...)` that builds
an item's name (`app/extractor.py:72`) runs on the text with its commas. There the
grouped-thousands branch removes a grouped amount in one piece: `RemoveGroupedAmount`
proves that `"a 1,250.00"` becomes `"a"`, and `CutsMatch` and `RunStartsRemoved` state
the general case. For the same reason every parsed amount lies in 0..999.99
(`ParseAmountRange`). The `except` branch of `parse_amount` cannot be taken, because the
captured text is always a valid decimal literal (`CaptureLiteral`).

The line-break threshold `max(10, int(0.5 * bottom - top))` is half the bottom minus the
full top, truncated toward zero. `Threshold` follows that precedence, and `TruncHalf`
models Python's `int` on a negative value.

## Model

| member | source | states |
|---|---|---|
| Text.NatToDecimal | app/main.py:59 | `str(n)`: a non-empty digit string that reads back as `n`, with no leading zero unless it is "0". |
| Text.NatToDecimalCanonical | app/main.py:59 | Every digit string with no leading zero (other than "0") is the rendering of its own value, so `str(n)` is the unique such string for `n`. |
| Text.DecimalValue | app/ocr_utils.py:40 | `int(d)` of a digit string: less than 10 to the power of its length. |
| Text.StripSpec | app/ocr_utils.py:36-37 | `str.strip()`: the result is a slice `s[a..b]` with only whitespace before `a` and after `b`. It is empty iff the text is all whitespace, and otherwise neither starts nor ends with whitespace. |
| Text.Strip | app/ocr_utils.py:36 | `str.strip()`, never longer than its input; `StripSpec` states what it cuts off. |
| Text.Lower | app/extractor.py:90 | `str.lower()` on ASCII, which keeps the length. |
| Text.Contains | app/extractor.py:92 | `k in t` for strings: `k` occurs in `t` at some offset. |
| Text.Join | app/ocr_utils.py:59 | `" ".join(parts)`: the parts with the separator between neighbours; `LineOf` uses it for each line's text. |
| Text.ContainsTransitive | app/extractor.py:92 | A substring of a substring is a substring, as `k in t` needs. |
| Text.DecimalValueAppend | app/ocr_utils.py:40 | Appending a digit multiplies the decimal value by ten and adds the digit. |
| Wrappers.SomeIndices | app/ocr_utils.py:35-41 | The values a filtering loop keeps come from exactly the present positions, in increasing order. |
| AmountPattern.CurrencyLen | app/extractor.py:6 | The optional currency marker of the pattern (`₹`, `$` or `INR`): its length at `p`, 0 when there is none. The marker holds no digit or space. |
| AmountPattern.IntegerEnd | app/extractor.py:6 | `[0-9]{1,3}` taken greedily: one to three digits, stopping early only at a non-digit or the end. |
| AmountPattern.GroupsEnd | app/extractor.py:6 | `(?:[,][0-9]{3})*` taken greedily: it moves only over a comma. |
| AmountPattern.FractionEnd | app/extractor.py:6 | `(?:\.[0-9]{1,2})?` taken greedily: empty, or a point and one or two digits, with the second taken when present. |
| AmountPattern.AmountEnd | app/extractor.py:6 | The end of capture group 1 at a digit: the first alternative's pieces in sequence, never empty. |
| AmountPattern.MatchAt | app/extractor.py:6 | A match at `p` has no digit just before `p`, starts its group at a digit, and ends where the amount literal ends. When a match exists is stated by `MatchAtIff`. |
| AmountPattern.MatchAtIff | app/extractor.py:6 | A match is anchored at `p` iff the look-behind holds and a digit follows the optional currency marker and the spaces after it. The capture then starts at that digit, whether the anchor is a digit, a space or a marker. |
| AmountPattern.MatchAtSpec | app/extractor.py:6 | Between the match start and the captured group there are only non-digits (currency marker and spaces). |
| AmountPattern.MatchAtDigit | app/extractor.py:6 | A digit with no digit before it starts a match whose group begins there. |
| AmountPattern.SearchFrom | app/extractor.py:6-12 | A search result lies at or after its start and captures a literal beginning with a digit. |
| AmountPattern.RemoveCommas | app/extractor.py:12 | `s.replace(',', '')`; `RemoveCommasCounts` states it deletes every comma and keeps every other character as often as it occurs, `RemoveCommasAppend` that it works piece by piece, and `RemoveCommasSpec` that its result has no comma. |
| AmountPattern.AmountCapture | app/extractor.py:12 | `AMOUNT_RE.search` on the comma-free text; `CaptureAtFirstDigit` places its capture. |
| AmountPattern.IsAmountLiteral | app/extractor.py:15 | The text `float` receives: digits, optionally followed by a point and one or two digits. |
| AmountPattern.Hundredths | app/extractor.py:15 | `float(g)` of such a literal, in hundredths; `LiteralSlice` and `LiteralBound` state its value and bound. |
| AmountPattern.CaptureAmount | app/extractor.py:13-17 | `float` of the capture with the `except` branch; `CaptureAmountAt` and `CaptureLiteral` show the `except` branch is never taken. |
| AmountPattern.ParseAmount | app/extractor.py:11-18 | `parse_amount` in hundredths. Its properties are `ParseAmountNoneIff`, `ParseAmountRange`, `ParseAmountLongRun` and `ParseGroupedThousands`. |
| AmountPattern.SearchNoDigit | app/extractor.py:12-18 | With no digit left, the search finds nothing. |
| AmountPattern.SearchFirstDigit | app/extractor.py:12 | The search finds the first digit that has no digit before it. |
| AmountPattern.FirstDigit | app/extractor.py:12 | It is the first digit position of the text. |
| AmountPattern.RemoveCommasSpec | app/extractor.py:12-15 | Removing commas leaves no comma, and a comma-free text is unchanged; so the second removal at line 15 changes nothing. |
| AmountPattern.RemoveCommasCounts | app/extractor.py:12 | `replace(',', '')` deletes every comma and keeps every other character as often as it occurs in the input (`multiset(s)[',' := 0]`). |
| AmountPattern.RemoveCommasKeepsDigits | app/extractor.py:12 | Removing commas keeps the text's digits. |
| AmountPattern.HasDigitAppend | app/extractor.py:12 | A concatenation has a digit iff one of its parts has. |
| AmountPattern.RemoveCommasAppend | app/extractor.py:12 | Comma removal distributes over concatenation. |
| AmountPattern.LiteralSlice | app/extractor.py:6 | Digits with an optional one- or two-digit fraction form an amount literal; without a fraction its value is the integer times 100. |
| AmountPattern.CaptureShape | app/extractor.py:6 | The captured text is a literal whose integer part ends where the scanner's integer part ends; a four-digit run is cut after three digits. |
| AmountPattern.LiteralBound | app/extractor.py:6-15 | A literal with at most three integer digits is at most 999.99. |
| AmountPattern.CaptureValue | app/extractor.py:6-15 | The captured literal is at most 999.99; a run of four or more digits yields its first three digits times 100. |
| AmountPattern.CaptureLiteral | app/extractor.py:14-17 | The captured group has no comma and is a valid literal, so `float` cannot fail. |
| AmountPattern.CaptureAmountAt | app/extractor.py:13-15 | At a match, the parsed value is the literal's value in hundredths. |
| AmountPattern.ParseAmountNoneIff | app/extractor.py:11-18 | `parse_amount` returns `None` exactly when the text has no digit. |
| AmountPattern.CaptureAtFirstDigit | app/extractor.py:12 | When there is a digit, the capture starts at the first digit of the comma-free text. |
| AmountPattern.ParseAmountRange | app/extractor.py:11-18 | Every parsed amount lies in 0..999.99. |
| AmountPattern.ParseAmountLongRun | app/extractor.py:6-15 | A first digit run of four or more digits parses as its first three digits, with no decimals. |
| AmountPattern.GroupedThousandsValue | app/extractor.py:11-18 | Any text whose comma-free form is `"1250.00"` parses to 125.00. |
| AmountPattern.ParseGroupedThousands | app/extractor.py:11-18 | `parse_amount("1,250.00")` is 125.00. |
| AmountPattern.NoMatchFromAll | app/extractor.py:72 | The recursive "no match from here on" test agrees with its quantified form. |
| AmountPattern.RemoveAmountsFrom | app/extractor.py:72 | The substitution scan from position `i`: it never lengthens the rest of the text; `CutsSpec` characterises it. |
| AmountPattern.RemoveAmounts | app/extractor.py:72 | `AMOUNT_RE.sub('', s)`; `RemoveAmountsSpec`, `CutsSpec` and `RunStartsRemoved` state what it removes. |
| AmountPattern.Cuts | app/extractor.py:72 | The regions the substitution deletes, left to right; `CutsSpec` states what they are. |
| AmountPattern.RemoveAmountsFromSpec | app/extractor.py:72 | The substitution leaves the rest of the text unchanged iff nothing in it matches. |
| AmountPattern.RemoveAmountsFromMatch | app/extractor.py:72 | A match at the current position always removes something. |
| AmountPattern.RemoveAmountsFromSkip | app/extractor.py:72 | A position without a match is copied, and the rest decides. |
| AmountPattern.RemoveAmountsSpec | app/extractor.py:72 | `AMOUNT_RE.sub('', s)` never lengthens `s`; it returns `s` iff no position matches, and in particular when `s` has no digit. Which text is removed is stated by `CutsSpec` and `RunStartsRemoved`. |
| AmountPattern.CutsChain | app/extractor.py:72 | The regions the substitution deletes are non-empty, increasing and disjoint. |
| AmountPattern.CutsKeep | app/extractor.py:72 | The substitution's result is exactly the text outside the deleted regions. |
| AmountPattern.CutsMatch | app/extractor.py:6-72 | Each deleted region is one whole match of AMOUNT_RE, from its anchor to the end of its capture. |
| AmountPattern.AllMatchesIndex | app/extractor.py:6-72 | The same, stated region by region. |
| AmountPattern.CutsLeftmost | app/extractor.py:72 | No match is anchored at any position outside the deleted regions, so the regions are the leftmost non-overlapping matches. |
| AmountPattern.CutsSpec | app/extractor.py:72 | `AMOUNT_RE.sub('', s)` combined: increasing disjoint regions, each one match, no match anchored outside them, and the result is the text outside them. |
| AmountPattern.RunStartsRemoved | app/extractor.py:72 | Every amount is removed, not only the first: each digit that starts a digit run lies in a deleted region. |
| AmountPattern.RemoveTwoAmounts | app/extractor.py:72 | "a 12 b 34" becomes "a b": both amounts go, each with the spaces before it. |
| AmountPattern.RemoveGroupedAmount | app/extractor.py:72 | The substitution keeps commas, so the grouped-thousands branch of line 6 matches: `"a 1,250.00"` has one match from the space to the end, and becomes `"a"`. |
| AmountPattern.FractionValue | app/extractor.py:65-68 | The fraction of a rate is below one unit. |
| AmountPattern.QtyRateAt | app/extractor.py:65-68 | The quantity-rate pattern anchored at `p`; `QtyRateAtShape` and `QtyRateAtFound` characterise it. |
| AmountPattern.SearchQtyRate | app/extractor.py:65-68 | `re.search` of that pattern; `SearchQtyRateFirst` and `SearchQtyRateNone` characterise it. |
| AmountPattern.QtyRateAtShape | app/extractor.py:65-68 | Wherever quantity digits, spaces, one of `xX*`, spaces, rate digits and a greedy one- or two-digit fraction occur at `p`, the quantity is the first group times 100 and the rate is the second group in hundredths. |
| AmountPattern.QtyRateAtFound | app/extractor.py:65 | A match at `p` always has that shape. |
| AmountPattern.SearchQtyRateFirst | app/extractor.py:65-68 | The search returns the match at the first position where the pattern matches. |
| AmountPattern.SearchQtyRateNone | app/extractor.py:65-66 | The search finds nothing iff the pattern matches at no position. |
| AmountPattern.QtyRateNeedsDigit | app/extractor.py:57-65 | A quantity-rate match implies a digit, so the line also has an amount. |
| OcrUtils.IsDigitString | app/ocr_utils.py:40 | `str.isdigit()` on ASCII: a non-empty string of digits. |
| OcrUtils.ParseConf | app/ocr_utils.py:40 | The confidence is at least -1, and it is -1 exactly when the field is not a digit string. |
| OcrUtils.ParseConfRoundTrip | app/ocr_utils.py:40 | The decimal rendering of `n` reads back as `n`. |
| OcrUtils.TokenOf | app/ocr_utils.py:36-41 | One raw word: skipped when its stripped text is empty, else kept with its box and parsed confidence. |
| OcrUtils.Tokens | app/ocr_utils.py:35-41 | The kept words in input order; `TokensSpec` states which and how. |
| OcrUtils.FilterTokens | app/ocr_utils.py:35-41 | The loop returns the filtered token list. |
| OcrUtils.TokensSpec | app/ocr_utils.py:35-41 | Words are kept iff they have a non-space character, in order. Each keeps its box, has stripped non-empty text and the parsed confidence. |
| OcrUtils.Insert | app/ocr_utils.py:43 | Inserting one word lengthens the list by one. |
| OcrUtils.SortByTopLeft | app/ocr_utils.py:43 | Sorting keeps the number of words; `SortByTopLeftSpec` and `SortByTopLeftStable` state that it is the stable sort by `(top, left)`. |
| OcrUtils.InsertBounded | app/ocr_utils.py:43 | A key at most the inserted word's and every listed word's stays at most every word's after the insertion. |
| OcrUtils.InsertSorted | app/ocr_utils.py:43 | Inserting into a sorted list keeps it sorted by `(top, left)`. |
| OcrUtils.InsertPermutes | app/ocr_utils.py:43 | Insertion adds exactly one copy of the word. |
| OcrUtils.SortByTopLeftSpec | app/ocr_utils.py:43 | The result is sorted by `(top, left)` and is a permutation of the input. |
| OcrUtils.InsertKeyRun | app/ocr_utils.py:43 | Inserting a word into a sorted list places it after every word with the same `(top, left)` key. |
| OcrUtils.SortByTopLeftStable | app/ocr_utils.py:43 | `sorted` is stable: the words sharing a `(top, left)` key come out in input order. With `SortByTopLeftSpec` this fixes the sorted list, and so the word order inside each line's `" ".join`. |
| OcrUtils.TruncHalf | app/ocr_utils.py:52 | Truncated halving: the magnitude is halved, rounded toward zero, and the sign is kept. |
| OcrUtils.Threshold | app/ocr_utils.py:52 | The line-break threshold is never below 10. |
| OcrUtils.ThresholdFloor | app/ocr_utils.py:52 | Floor halving gives the same threshold, since the two differ only below 10. |
| OcrUtils.Start | app/ocr_utils.py:47-49 | The line before the loop: the first word's box and no words yet; `FirstTokenJoins` shows the first word then joins it. |
| OcrUtils.Seed | app/ocr_utils.py:67-68 | The line a word opens when it does not join: that word and its box. |
| OcrUtils.Joins | app/ocr_utils.py:52 | The join test `abs(top difference) <= threshold`; `FeedSpec` states it in both directions. |
| OcrUtils.Absorb | app/ocr_utils.py:53-56 | Adding a word: appended to the texts, left and right and bottom widened, top kept; `AbsorbWellBuilt` states the resulting box. |
| OcrUtils.Feed | app/ocr_utils.py:50-68 | One step of the grouping loop; `FeedSpec` states the join rule and `FeedMembers` what it adds. |
| OcrUtils.Run | app/ocr_utils.py:47-68 | The grouping loop after the words `ts`; `RunMembers`, `RunWellBuilt` and `RunSpread` state its properties. |
| OcrUtils.LineOf | app/ocr_utils.py:59-66 | The record of one line: joined text, box as left, top, width and height. |
| OcrUtils.LinesOf | app/ocr_utils.py:44-78 | The `lines` list of sorted words; `LinesSpec`, `GroupsPartition`, `LineTopsSpread` and `NoTokensNoLines` state its properties. |
| OcrUtils.FeedSpec | app/ocr_utils.py:50-68 | A word joins the open line iff its top is within the threshold; the line then keeps its top. Otherwise the open line is closed and the word seeds a new one. |
| OcrUtils.FirstTokenJoins | app/ocr_utils.py:47-53 | The first word always joins the line seeded from its own box. |
| OcrUtils.Groups | app/ocr_utils.py:69-77 | A non-empty word list always yields at least one line. |
| OcrUtils.GroupLines | app/ocr_utils.py:44-78 | The grouping loop returns the lines of the single-pass grouping. |
| OcrUtils.OcrLines | app/ocr_utils.py:35-78 | Filter, sort and group together give the lines of the sorted filtered words. |
| OcrUtils.NoTokensNoLines | app/ocr_utils.py:45-46 | No words give no lines. |
| OcrUtils.FeedMembers | app/ocr_utils.py:50-68 | One step appends the word to the words taken so far. |
| OcrUtils.RunMembers | app/ocr_utils.py:50-68 | The pass never drops, repeats or reorders a word. |
| OcrUtils.GroupsPartition | app/ocr_utils.py:47-77 | The lines' words, concatenated in order, are exactly the sorted words. |
| OcrUtils.AbsorbWellBuilt | app/ocr_utils.py:53-56 | Extending a line keeps its box equal to the extent of its words, with the first word's top. |
| OcrUtils.RunWellBuilt | app/ocr_utils.py:47-68 | Every line has words. Its top is its first word's top, and its left, right and bottom are the extent of its words. |
| OcrUtils.ExtentBelowMembers | app/ocr_utils.py:54-56 | The line's left is at most its first word's left. For a non-negative box the right and bottom reach past its start. |
| OcrUtils.LinesSpec | app/ocr_utils.py:59-77 | Each emitted line has the joined text of its words and the box of their extent, as left, top, width and height. |
| OcrUtils.RunSpread | app/ocr_utils.py:50-68 | On sorted words, the tops of successive lines rise by more than 10. |
| OcrUtils.LineTopsSpread | app/ocr_utils.py:43-78 | On sorted words, every emitted line starts more than 10 below the previous one. |
| Extractor.IoUSymmetric | app/extractor.py:20-33 | The intersection and the IoU are symmetric. |
| Extractor.Intersection | app/extractor.py:22-28 | The overlap area of two boxes; `IntersectionBounds` bounds it. |
| Extractor.Union | app/extractor.py:29-31 | The sum of the two areas less the overlap. |
| Extractor.IoU | app/extractor.py:20-33 | `iou`, 0 when the union is empty; `IoUBounds`, `IoUSymmetric`, `IoUDisjoint` and `IoUIdentical` state its properties. |
| Extractor.IntersectionBounds | app/extractor.py:22-30 | For non-negative boxes the overlap is between 0 and each box's area. |
| Extractor.IoUBounds | app/extractor.py:20-33 | For non-negative boxes the IoU lies in [0, 1]. |
| Extractor.IoUDisjoint | app/extractor.py:26-32 | Disjoint boxes, or an empty union, have IoU 0. |
| Extractor.IoUIdentical | app/extractor.py:20-33 | A box of positive area has IoU 1 with itself. |
| Extractor.IsDuplicate | app/extractor.py:40-47 | The inner test of `dedupe_items`: equal amounts to the hundredth and IoU above 0.4, or a name score above 90 and amounts less than 1.00 apart. |
| Extractor.DuplicateOfAny | app/extractor.py:39-47 | Some kept item makes the candidate a duplicate. |
| Extractor.Dedupe | app/extractor.py:35-50 | `dedupe_items`; `KeptIndices`, `DedupeDuplicateFree`, `DedupeDropsOnlyDuplicates` and `DedupeIdempotent` state its properties. |
| Extractor.DedupeItems | app/extractor.py:35-50 | The nested loop keeps an item iff it is no duplicate of an item already kept. |
| Extractor.KeptIndices | app/extractor.py:35-50 | The kept items are a subsequence of the input, in order. |
| Extractor.DedupeKeepsFirst | app/extractor.py:36-49 | A non-empty input always keeps its first item. |
| Extractor.DedupeDuplicateFree | app/extractor.py:37-49 | No kept item duplicates an earlier kept item. |
| Extractor.DedupeDropsOnlyDuplicates | app/extractor.py:38-49 | A dropped item always has a kept item before it. |
| Extractor.DuplicateFreeInit | app/extractor.py:35-50 | A prefix of a duplicate-free list is duplicate-free. |
| Extractor.DuplicateFreeLast | app/extractor.py:35-50 | The last item of a duplicate-free list duplicates none before it. |
| Extractor.DedupeKeepsFresh | app/extractor.py:48-49 | An item that duplicates nothing kept is appended. |
| Extractor.DedupeFixesDuplicateFree | app/extractor.py:35-50 | A duplicate-free list is returned unchanged. |
| Extractor.DedupeIdempotent | app/extractor.py:35-50 | Deduplicating twice is the same as once. |
| Extractor.CandidateOf | app/extractor.py:56-82 | The candidate of one line, if it has an amount; `CandidateShape` states all its fields, rate and quantity included. |
| Extractor.BuildCandidate | app/extractor.py:56-82 | The loop body builds exactly the line's candidate. |
| Extractor.CollectCandidates | app/extractor.py:54-82 | The loop collects the candidates of all lines, in order. |
| Extractor.ExtractLineItems | app/extractor.py:52-85 | The result is the deduplicated candidate list. |
| Extractor.CandidateSources | app/extractor.py:55-82 | There is one candidate per line with an amount, in line order, and none for other lines. |
| Extractor.CandidateShape | app/extractor.py:56-82 | A line has a candidate iff its stripped text parses, zero included. The candidate copies the line's box and has the amount of the stripped text, in 0..999.99. Rate and quantity are set exactly when the quantity x rate search on the stripped text succeeds, and are then its rate and quantity. The name is the stripped amount-free text, or the stripped text when that is empty. |
| Extractor.KeywordHits | app/extractor.py:91-100 | The number of keywords found is positive iff some keyword occurs, and at most the list length. |
| Extractor.Repeat | app/extractor.py:96-100 | `n` copies of one amount. |
| Extractor.Truthy | app/extractor.py:94 | Python's `if amt:` on an optional amount: present and non-zero. |
| Extractor.ScanTotalKeywords | app/extractor.py:91-95 | The invoice total is replaced by the line's amount iff some total keyword occurs and the amount is non-zero. |
| Extractor.ScanSubtotalKeywords | app/extractor.py:96-100 | A non-zero amount is appended once per subtotal keyword found. |
| Extractor.ScanLine | app/extractor.py:89-100 | One line's step of `find_totals`. |
| Extractor.ReadingOf | app/extractor.py:90-100 | What one line contributes: whether a total keyword occurs, the number of subtotal keywords found, and the amount. |
| Extractor.Step | app/extractor.py:91-100 | One line's update of the totals. |
| Extractor.Accumulate | app/extractor.py:88-101 | The totals after a sequence of line readings; `InvoiceTotalIsLast` and `SubtotalsImplyTotal` state its properties. |
| Extractor.TotalsOf | app/extractor.py:87-101 | `find_totals`; `FindTotalsSubtotals` states its properties. |
| Extractor.FindTotals | app/extractor.py:87-101 | The totals loop returns the fold of the line steps. |
| Extractor.Readings | app/extractor.py:89-90 | One reading per line. |
| Extractor.InvoiceTotalIsLast | app/extractor.py:88-95 | The invoice total is absent iff no line is a total line; otherwise it is the amount of the last one, and never zero. |
| Extractor.SubtotalLineIsTotalLine | app/extractor.py:8-9 | Every subtotal keyword contains "total", so a subtotal line also matches a total keyword. |
| Extractor.ReadingConsistent | app/extractor.py:8-98 | A line's reading has in-range amounts, and has subtotal hits only when it is a total line. |
| Extractor.SubtotalsImplyTotal | app/extractor.py:88-100 | Subtotals are non-zero and at most 999.99, and there are some only when an invoice total exists. |
| Extractor.ReadingsConsistent | app/extractor.py:89-100 | Every line's reading is consistent. |
| Extractor.FindTotalsSubtotals | app/extractor.py:87-101 | For any lines, the detected subtotals lie in (0, 999.99] and imply a detected invoice total. |
| Extractor.ColonSubtotalCountsTwice | app/extractor.py:9-100 | A line containing "sub-total:" appends its amount at least twice. |
| BillData.CleanItems | app/main.py:49-56 | One bill item per extracted item. |
| BillData.CleanValue | app/main.py:54-55 | `round(float(v), 2) if v else None`: a missing or zero value becomes `None`. |
| BillData.CleanItem | app/main.py:51-56 | One `bill_items` entry; `CleanItemSpec` states its fields. |
| BillData.PageOutOf | app/main.py:58-62 | The record of page `i`; `PagesSpec` states its fields. |
| BillData.BillItemCount | app/main.py:63 | `total_items`; `ItemCountIsItemTotal` relates it to the extracted items. |
| BillData.ItemsAmount | app/main.py:57 | The sum of one page's item amounts. |
| BillData.AmountOf | app/main.py:57 | `all_detected_amount`; `FinalTotalIsItemSum` and `FinalTotalBound` state its properties. |
| BillData.InvoiceTotals | app/main.py:46-47 | The truthy page totals in page order; `InvoiceTotalsEmpty` and `InvoiceTotalsNonZero` state its properties. |
| BillData.LastInvoiceTotal | app/main.py:69 | `actual_invoice_total`; `LastInvoiceTotalSpec` states its properties. |
| BillData.Reconcile | app/main.py:82-84 | The reconciliation record; `ReconcileSpec` states its properties. |
| BillData.PagesOf | app/main.py:58-62 | One page record per page. |
| BillData.CleanPage | app/main.py:49-57 | The inner loop gives the cleaned items and adds their amounts to the running sum. |
| BillData.AccumulatePages | app/main.py:37-63 | The page loop gives the page records, their item count, the amount sum and the truthy page totals. |
| BillData.ExtractBillData | app/main.py:37-84 | The summary holds the page records, the item count, the amount sum, the last truthy page total and its reconciliation. |
| BillData.ReconcileTotals | app/main.py:82-84 | The difference and status are computed from the detected and summed totals. |
| BillData.ProcessPage | app/main.py:43-45 | A page's words give the deduplicated candidates and the totals of its OCR lines, with every amount in 0..999.99. |
| BillData.ExtractedAmountsInRange | app/extractor.py:52-85 | Extracted items have amounts in 0..999.99 and non-empty names. |
| BillData.FinalTotalBound | app/main.py:57-67 | The final total is between 0 and 999.99 per item. |
| BillData.ItemsAmountBound | app/main.py:57 | A page's amount sum is between 0 and 999.99 per item. |
| BillData.PagesSpec | app/main.py:41-62 | Page records are in input order. Page `i` is numbered by a digit string with no leading zero that reads back as `i + 1`, so it is exactly `str(i + 1)`. Every page has type "Bill Detail" and one cleaned item per extracted item. |
| BillData.CleanItemSpec | app/main.py:51-55 | Name and amount are kept. Rate and quantity are kept iff present and non-zero, and are `None` otherwise. |
| BillData.ItemCountIsItemTotal | app/main.py:63 | The item count is the total number of extracted items. |
| BillData.ItemsAmountAppend | app/main.py:57 | The amount sum is additive over concatenation. |
| BillData.FinalTotalIsItemSum | app/main.py:57-67 | The final total is the sum of all items' amounts over all pages. |
| BillData.InvoiceTotalsEmpty | app/main.py:46-47 | No page total is collected iff no page has a truthy total. |
| BillData.InvoiceTotalsNonZero | app/main.py:46-47 | Every collected page total is non-zero. |
| BillData.LastInvoiceTotalAt | app/main.py:69 | The detected total is the total of the last page with a truthy one. |
| BillData.LastInvoiceTotalSpec | app/main.py:46-69 | The detected total is absent iff no page has a truthy total. Otherwise it is the last such total, never zero. |
| BillData.ReconcileSpec | app/main.py:82-84 | The status is UNKNOWN iff no total was detected, and then the difference is absent. Otherwise the difference is detected minus final, and the status is MATCH iff they are equal to the hundredth. |

## Left out

- The HTTP endpoint, request parsing, timing, `token_usage` and response wrapping in
  `app/main.py` are not modelled; `BillSummary` holds the `data` fields without timing.
- Loading PDFs or images, OpenCV preprocessing and the `pytesseract` call are foreign I/O.
  A page is given as its word list (`ProcessPage`) or as its extraction results
  (`ExtractBillData`).
- `fuzz.token_sort_ratio` is foreign code; it is the parameter `sim`.
- Floating point: amounts are exact hundredths. `round(x, 2)` is the identity on them, and
  the float rounding error in the summed total is not modelled. `float(m.group(2))` on a
  rate such as `2.5` is 250 hundredths. The boundary tests differ from the floats as well:
  in the duplicate tests of app/extractor.py:40 and :45 (`< 0.01`, `< 1.0`) and in the
  reconciliation status of app/main.py:84 (`< 0.01`), Python finds `abs(12.34 - 12.33) < 0.01`
  and `abs(2.01 - 1.01) < 1.0` true. So for Python, items one cent apart can be duplicates
  and totals one cent apart give MATCH. In the model they do not: `IsDuplicate` and
  `Reconcile` compare exact hundredths, so `< 0.01` means equal and `< 1.0` means at most 0.99 apart.
- `str.lower`, `str.strip`, `str.isdigit` and the regex classes `\s` and `\d` cover ASCII only.
- `dedupe_items` is modelled with its default thresholds 0.4 and 90, the only values its
  caller passes.
- The `except` branch of `parse_amount` is modelled, and `CaptureLiteral` shows it
  unreachable.
- The call to `parse_amount` inside each keyword iteration of `find_totals` is evaluated
  once per iteration. It is pure, so the model reads it through one value.
- The keyword lists are parameters of `ScanTotalKeywords` and `ScanSubtotalKeywords`;
  `ScanLine` passes the two constant lists.
- The tests of the repository are not part of this model.
- In `parse_amount` the amount pattern's grouped-thousands branch never sees a comma,
  because the search runs after the comma removal at `app/extractor.py:12`. The model
  follows that code, so `"1,250.00"` reads as 125.00 (`AmountPattern.ParseGroupedThousands`),
  and not as 1250.00 as a reading of the pattern alone would suggest. The substitution at
  `app/extractor.py:72` keeps the commas, and there the branch does match
  (`AmountPattern.RemoveGroupedAmount`).
