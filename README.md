# airlinesim-bot decision core in Dafny

This project models the decision core of the airlinesim-bot. It covers:
- choosing an aircraft family and a model to lease from the market catalog;
- the older single-step purchase advice;
- choosing stations to open;
- the append-only decision log;
- the balance service with its history file, and the balance checks built on it.

The AI replies, the web pages the bot scrapes and the clock are inputs. Whatever the bot reads from a page arrives as a value: table rows, the balance link, the family list. Files the bot reads and writes are class fields: the two catalog caches, the decision log and the balance history. A missing or unreadable file is one of the field's cases.

Modules, file by file:

- `wrappers.dfy` (`Wrappers`): `Option` and `Result`.
- `js_text.dfy` (`JsText`): the JavaScript string built-ins the core relies on. These are `trim`, `toLowerCase` on the characters that occur, `includes`, `parseInt`, and the two `replace` calls that strip commas and non-digits.
- `reply_scan.dfy` (`ReplyScan`): the `LABEL: value` reply format, read the way the analyzers' regular expressions read it. The leftmost match wins, `\s*` is greedy and gives characters back, and `(.+?)(?=…|$)` with the `s` flag is lazy.
- `seqs.dfy` (`Seqs`): `filter`, `find`, `slice(-n)`, grouping keys in first-appearance order, and a stable sort by an integer key.
- `ratio.dfy` (`Ratios`): the quotients the fallback reductions compare. Each is a JavaScript division that may give `Infinity` or `NaN`.
- `name_match.dfy` (`NameMatch`): resolving the name an AI reply recommends. The exact tier comes first and the partial tier second, both lower-cased.
- `catalog.dfy` (`Catalog`): the `AircraftDataService`. It covers the leasing figures, the row filter, cache validity and cache-or-fetch, and `groupAircraftByFamily` as the in-place dictionary loop proved against a functional grouping.
- `aircraft_analyzer.dfy` (`AircraftAnalyzer`): `AircraftAIAnalyzer`, the two-step family and model choice.
- `simple_manager.dfy` (`SimpleManager`): `SimpleAircraftManager`, its single-step recommendation and `manageFleet`.
- `station_analyzer.dfy` (`StationAnalyzer`): `StationAIAnalyzer`. The parse loop is over `STATION_1` to `STATION_5`, and the stations are then sorted by priority.
- `decision_log.dfy` (`DecisionLog`): `DecisionLogger`, with the log file as a field and the analytics loop.
- `balance_service.dfy` (`BalanceService`): `BalanceService`, covering parsing the balance link, the capped history file, history slices and statistics.
- `balance_utils.dfy` (`BalanceUtils`): `BalanceUtils`, covering affordability, the safe spending amount and formatting.

## Model

| member | source | states |
|---|---|---|
| JsText.Trim | modules/simpleAircraftManager.js:103-110 | `trim()`: the result neither starts nor ends with white space, and is no longer than the input |
| JsText.TrimSlice | modules/simpleAircraftManager.js:103-110 | `trim()` leaves the slice of the input that starts where the leading white space ends; everything cut off at either end is white space |
| JsText.StripCommas | services/balanceService.js:60 | `replace(/,/g, '')`: exactly the characters other than commas, in input order; a digits-and-commas text becomes all digits |
| JsText.OnlyDigits | modules/simpleAircraftManager.js:313 | `replace(/[^\d]/g, '')`: exactly the digits of the input, in order |
| JsText.OnlyDigitsKeepsDigits | modules/simpleAircraftManager.js:313 | a text of digits only is left unchanged |
| JsText.ParseInt | services/aircraftAIAnalyzer.js:256 | `parseInt` without a radix gives `NaN` exactly when, after leading white space and a sign, no digit of the base follows, where a `0x` prefix selects hexadecimal |
| JsText.ParseIntDigits | services/aircraftAIAnalyzer.js:256 | `parseInt` of a non-empty digit string is the value those digits spell |
| JsText.ParseIntHexDigits | services/aircraftAIAnalyzer.js:256 | `0x` followed by hexadecimal digits parses to their value |
| JsText.ParseIntHexEmpty | services/aircraftAIAnalyzer.js:256 | `0x` with no hexadecimal digit after it is `NaN`, even before decimal digits |
| JsText.TrimKeeps | services/aircraftAIAnalyzer.js:211 | `trim()` keeps any property that every character of its input has |
| JsText.TrimSpaces | modules/simpleAircraftManager.js:103-110 | a text of white space trims to `''` |
| JsText.EqualFoldIsSameName | services/aircraftAIAnalyzer.js:216-218 | the case-insensitive comparison of the regex `i` flag agrees with comparing `toLowerCase()` of both sides |
| ReplyScan.FirstMatch | services/aircraftAIAnalyzer.js:70 | `match` finds the leftmost start position, and nothing matches before it |
| ReplyScan.LineField | services/aircraftAIAnalyzer.js:70 | `/LABEL:\s*(.+)/i`: no match exactly when no position matches (a label followed only by line ends does not); otherwise the leftmost match |
| ReplyScan.LineFieldOnOneLine | services/aircraftAIAnalyzer.js:70 | `.` matches no line terminator, so the field stays on one line |
| ReplyScan.LineFieldFirst | services/aircraftAIAnalyzer.js:70 | the first occurrence of the label decides the field when text follows it |
| ReplyScan.DigitsField | services/aircraftAIAnalyzer.js:72 | `/LABEL:\s*(\d+)/i`: no match exactly when no label is followed by digits (`ca. 180` is none); otherwise the digits after the leftmost label that has them |
| ReplyScan.DigitsFieldFirst | services/aircraftAIAnalyzer.js:72 | the first label followed by digits gives their value, whatever labels without digits come before it |
| ReplyScan.DigitsOr | services/aircraftAIAnalyzer.js:72 | `match ? parseInt(m[1]) : d`: the default when no label is followed by digits, otherwise the number after the leftmost label that has them |
| ReplyScan.DigitCommaField | services/aircraftAIAnalyzer.js:208-209 | `/LABEL:\s*([\d,]+)/i`: no match exactly when no label is followed by a digit or comma; otherwise the maximal run after the leftmost such label |
| ReplyScan.LazyField | services/aircraftAIAnalyzer.js:71 | `/LABEL:\s*(.+?)(?=STOP\|$)/is`: no match exactly when no position matches (a label followed only by white space does not); otherwise the leftmost match |
| ReplyScan.LazyFieldFirst | services/aircraftAIAnalyzer.js:71 | the first label with text after it gives the text up to the next stop label or the end of the reply, trimmed |
| ReplyScan.LazyOr | services/aircraftAIAnalyzer.js:71 | `match ? m[1].trim() : d`: the default when no position matches, otherwise the leftmost match, trimmed |
| Seqs.FindFirst | services/aircraftAIAnalyzer.js:79-81 | `find`: the first index whose element satisfies the predicate, `None` exactly when none does |
| Seqs.Filter | services/decisionLogger.js:80 | `filter`: the kept elements are exactly the passing ones |
| Seqs.FilterAppend | services/decisionLogger.js:80 | `filter` distributes over concatenation, so the kept elements keep their order |
| Seqs.FilterCount | services/decisionLogger.js:80 | every kept element keeps its multiplicity, every other is dropped |
| Seqs.FilterMapAppend | services/aircraftDataService.js:194-236 | a `forEach` that pushes accepted results yields those of the first block, then those of the second |
| Seqs.MembersAreFiltered | services/aircraftDataService.js:310-311 | a group holds the input filtered by its key, in input order |
| Seqs.FirstMinIndex | services/aircraftAIAnalyzer.js:109-111 | `reduce` with `<`: the first element with the least key |
| Seqs.Last | services/balanceService.js:113 | `slice(-n)` for positive `n`: the last `min(n, length)` elements |
| Seqs.SortBy | services/aircraftAIAnalyzer.js:140-142 | `sort` by an integer key: sorted, and a permutation of the input |
| Seqs.SortByStable | services/aircraftDataService.js:278 | the sort is stable: the elements of each key keep their input order |
| Seqs.SortByHead | services/aircraftAIAnalyzer.js:246 | the head of the sorted list is the first element with the least key |
| Seqs.FilterFirstMin | modules/simpleAircraftManager.js:209-211 | the first minimum of the passing elements sits at a position of the input: every passing element before it costs more |
| Seqs.SortedHeadIsMin | services/aircraftAIAnalyzer.js:246 | the head of a sorted list has the least key |
| Ratios.Div | services/aircraftAIAnalyzer.js:102-103 | JavaScript division of integers: finite exactly when the divisor is not 0; otherwise `Infinity`, `-Infinity` or `NaN` by the sign of the dividend |
| Ratios.GreaterStrict | services/aircraftAIAnalyzer.js:104 | `>` on those quotients is irreflexive and asymmetric |
| Ratios.BestIdx | services/aircraftAIAnalyzer.js:101-105 | the position the filtered `reduce` with `>` keeps: none exactly when nothing passes; nothing passing is greater, every earlier passing element is lower or `NaN`, and a `NaN` at the first passing element is kept |
| NameMatch.Resolve | services/aircraftAIAnalyzer.js:79-89 | the chosen candidate's name overlaps the wanted one, and there is none exactly when no name overlaps |
| NameMatch.ResolveExact | services/aircraftAIAnalyzer.js:79-81 | the first case-insensitively equal name wins over earlier partial matches |
| NameMatch.ResolvePartial | services/aircraftAIAnalyzer.js:84-89 | without an exact match, the first overlapping name is taken |
| NameMatch.ResolveEmptyLabel | services/aircraftAIAnalyzer.js:74 | a missing recommendation (`''`) resolves to the first candidate when no candidate's name is empty |
| NameMatch.Pick | services/aircraftAIAnalyzer.js:79-114 | an overlapping candidate is chosen when one exists, and otherwise the fallback |
| NameMatch.PickExact | services/aircraftAIAnalyzer.js:216-218 | an exactly named model is picked, the first of them |
| NameMatch.PickPartial | services/aircraftAIAnalyzer.js:221-226 | without an exact name, the first overlapping model is picked |
| NameMatch.PickEmptyName | services/aircraftAIAnalyzer.js:74-81 | a missing recommendation picks the first candidate when no name is empty |
| Catalog.Leased | services/aircraftDataService.js:213-233 | the deposit and weekly rate are the floors of price/20 and price/200, the initial cost is the deposit, and the weekly rate never exceeds the deposit |
| Catalog.WeeklyRateAtMostDeposit | services/aircraftDataService.js:214-215 | for a positive price the weekly rate is between 0 and a tenth of the deposit |
| Catalog.DigitCommaRun | services/aircraftDataService.js:208 | `/[\d,]+/` finds nothing exactly when the text has no digit or comma; otherwise the maximal run at the leftmost position where one starts |
| Catalog.PurchasePrice | services/aircraftDataService.js:208-210 | no run gives 0; a run of commas only gives `NaN`; otherwise the digits of the leftmost run, in order, read as one number |
| Catalog.LeftmostRun | services/aircraftDataService.js:208 | a run behind text without digits or commas is the one found |
| Catalog.PurchasePriceGroups | services/aircraftDataService.js:208-210 | a price such as `$1,499,000` reads as its digits in order |
| Catalog.ScanRow | services/aircraftDataService.js:195-235 | a row yields an entry exactly when it has at least eight cells, a model, an availability containing `yes` in any case and a positive price |
| Catalog.ScanRowAccepted | services/aircraftDataService.js:212-233 | an accepted entry carries its family, a non-empty model and a positive price, and its leasing figures derive from that price |
| Catalog.ScanRows | services/aircraftDataService.js:190-239 | every entry comes from an accepted row and every accepted row gives an entry |
| Catalog.ScanRowsAppend | services/aircraftDataService.js:194-236 | the entries of two blocks of rows are those of the first block followed by those of the second |
| Catalog.ScanRowsSingle | services/aircraftDataService.js:196-233 | one row contributes its entry once when accepted and nothing otherwise |
| Catalog.CheckCache | services/aircraftDataService.js:15-42 | valid exactly when stored less than the time-to-live ago; a missing or broken file is invalid, empty and of age 0; the data default to `[]` |
| Catalog.CacheAgeBoundary | services/aircraftDataService.js:24 | the boundary is exclusive, and validity is monotone in time |
| Catalog.FetchThenServe | services/aircraftDataService.js:79-99 | a freshly written non-empty cache serves its data until the time-to-live expires |
| Catalog.BrokenCacheRefetches | services/aircraftDataService.js:38-41 | a missing or broken cache never serves |
| Catalog.Merge | services/aircraftDataService.js:267-275 | the merged catalog holds exactly the entries of the families whose scan succeeded |
| Catalog.ScanFamilies | services/aircraftDataService.js:265-275 | the loop's list is the concatenation of the successful scans in family order |
| Catalog.ScannedEntry | services/aircraftDataService.js:212-233 | an entry of a family page carries that family's name, a model and a positive price |
| Catalog.MergedScans | services/aircraftDataService.js:265-275 | every merged entry comes from a listed family, named after it, with a model and a positive price |
| Catalog.CatalogStore.constructor | services/aircraftDataService.js:5-10 | both cache files are as found |
| Catalog.CatalogStore.GetAllAircraftFamilies | services/aircraftDataService.js:129-175 | cached families when unforced, valid and non-empty; otherwise the page's families, written to the family cache; the aircraft cache is unchanged |
| Catalog.CatalogStore.GetAvailableAircraft | services/aircraftDataService.js:248-289 | the cached catalog with both caches untouched, or the merged scans of the family pages sorted by initial cost and written to the aircraft cache, with the family list and the family cache as `getAllAircraftFamilies` leaves them |
| Catalog.Accumulate | services/aircraftDataService.js:297-317 | a group built from its members is named by their family, holds exactly them and counts them |
| Catalog.AccumulateDepositBounds | services/aircraftDataService.js:302-303 | the minimum deposit is an attained lower bound, and the maximum is an upper bound, attained unless every deposit is below the seed 0 |
| Catalog.AccumulatePassengerBounds | services/aircraftDataService.js:304-305 | the same for passengers |
| Catalog.Groups | services/aircraftDataService.js:294-320 | one group per family key |
| Catalog.GroupsMembers | services/aircraftDataService.js:298-316 | group `i` is named by the i-th family in order of first appearance and holds exactly that family's aircraft in input order |
| Catalog.GroupOfFamily | services/aircraftDataService.js:310-311 | every group is non-empty, and only aircraft of its own family are in it |
| Catalog.GroupsDistinct | services/aircraftDataService.js:298 | group names are distinct |
| Catalog.GroupsTotal | services/aircraftDataService.js:297-311 | every aircraft is in the group of its family |
| Catalog.GroupsPartition | services/aircraftDataService.js:316 | the model counts add up to the number of aircraft |
| Catalog.GroupedNew | services/aircraftDataService.js:298-308 | a step on a new family adds its group at the end of the key order |
| Catalog.GroupedOld | services/aircraftDataService.js:310-316 | a step on a known family updates only its group |
| Catalog.BuildGroups | services/aircraftDataService.js:295-317 | the `forEach` loop over the dictionary ends with one correct group per family, in key order |
| Catalog.GroupValues | services/aircraftDataService.js:319 | `Object.values` of the dictionary is the functional grouping |
| Catalog.GroupAircraftByFamily | services/aircraftDataService.js:294-320 | the method returns the functional grouping |
| AircraftAnalyzer.FallbackFamily | services/aircraftAIAnalyzer.js:92-114 | if any family is affordable, the one the ratio reduction keeps: no affordable family has a greater passengers/deposit ratio, every earlier one has a lower or `NaN` ratio, and a `NaN` first affordable family is kept; otherwise the first family with the least minimum deposit |
| AircraftAnalyzer.PickFamily | services/aircraftAIAnalyzer.js:79-114 | a family is selected exactly when there are families, and it is one of them |
| AircraftAnalyzer.PickFamilyFallback | services/aircraftAIAnalyzer.js:84-92 | the fallback is taken exactly when no family name overlaps the wanted one |
| AircraftAnalyzer.WantedFamily | services/aircraftAIAnalyzer.js:70-74 | `''` when no `FAMILIE:` label is followed by text on its line; otherwise the leftmost such line, trimmed |
| AircraftAnalyzer.FamilyReason | services/aircraftAIAnalyzer.js:71-75 | the default reasoning when no `GRUND:` label is followed by text; otherwise the leftmost match up to `PASSAGIER_ZIEL:`, trimmed |
| AircraftAnalyzer.TargetPassengers | services/aircraftAIAnalyzer.js:72-76 | 150 when no `PASSAGIER_ZIEL:` label is followed by digits (`ca. 180` included); otherwise the leftmost such number |
| AircraftAnalyzer.ChooseBestFamily | services/aircraftAIAnalyzer.js:12-122 | a family is selected exactly when there are groups, by the wanted name; the reply is recorded; the target passengers are `TargetPassengers` of the reply and the reasoning is `FamilyReason` of the reply, so each is the leftmost `PASSAGIER_ZIEL:` or `GRUND:` match and falls back to its default when no label matches |
| AircraftAnalyzer.ChooseFamilyWithoutName | services/aircraftAIAnalyzer.js:74-88 | a reply without `FAMILIE:` selects the first family, because `''` is contained in every name |
| AircraftAnalyzer.Candidates | services/aircraftAIAnalyzer.js:130-137 | the models within 50 passengers of the target in family order, or the whole family when none is |
| AircraftAnalyzer.TopModels | services/aircraftAIAnalyzer.js:139-142 | `sort(...).slice(0, 20)`: the first `min(20, candidates)` elements of the candidates sorted by deposit, so ties at the cut keep their candidate order and the head is the first cheapest; non-empty exactly when the family is |
| AircraftAnalyzer.TopModelsCheapest | services/aircraftAIAnalyzer.js:140-142 | no candidate left out has a lower deposit than one kept |
| AircraftAnalyzer.FamilyAfterSort | services/aircraftAIAnalyzer.js:137-141 | the in-place `sort` reorders the family's own array by deposit exactly when no model is near the target |
| AircraftAnalyzer.FallbackModel | services/aircraftAIAnalyzer.js:229-248 | if a model is affordable, the one the ratio reduction keeps (the earliest of the best, or a `NaN` first affordable model); otherwise the first of the sorted list |
| AircraftAnalyzer.PickModel | services/aircraftAIAnalyzer.js:215-248 | a model is selected exactly when the shortlist is non-empty, and it is on it |
| AircraftAnalyzer.PickModelCheapest | services/aircraftAIAnalyzer.js:244-247 | with no overlapping name and nothing affordable, the cheapest model is chosen |
| AircraftAnalyzer.Estimate | services/aircraftAIAnalyzer.js:256-257 | a missing figure gives 0, a commas-only figure gives `NaN`, and otherwise the value of the figure's digits with the commas removed |
| AircraftAnalyzer.InaccurateBounds | services/aircraftAIAnalyzer.js:259-265 | an exact estimate never warns, and a positive estimate against a total of 0 always warns |
| AircraftAnalyzer.ChooseBestModel | services/aircraftAIAnalyzer.js:127-288 | the aircraft is `PickModel` over the top models for the `EMPFEHLUNG:` line (exact name, partial name, best affordable ratio, cheapest), and the analysed count is the number of top models; the quantity and the reasoning are the leftmost `ANZAHL:` and `GRUND:` matches or their defaults (1, the model-analysis reasoning); the estimates are the `SECURITY_DEPOSITS:` and `WOCHENKOSTEN:` figures; the totals are per-unit times quantity (0 without a model); a warning is raised exactly when an estimate is off by more than a tenth; the family's list is re-sorted as the in-place sort leaves it |
| AircraftAnalyzer.ChooseModelExact | services/aircraftAIAnalyzer.js:205-218 | a top model named like the `EMPFEHLUNG:` line, ignoring case, is leased when no earlier top model has that name, whatever the budget |
| AircraftAnalyzer.TotalsIgnoreEstimates | services/aircraftAIAnalyzer.js:252-257 | the figures the reply states never change the chosen aircraft or the totals |
| AircraftAnalyzer.AnalysisBudget | services/aircraftAIAnalyzer.js:297-299 | a missing or zero budget becomes the floor of 60% of the balance; any other budget is kept |
| AircraftAnalyzer.ModelOfGroup | services/aircraftAIAnalyzer.js:316-324 | a family from the grouped catalog always yields a model of the catalog and of that family |
| AircraftAnalyzer.AnalyzeAircraftChoice | services/aircraftAIAnalyzer.js:293-330 | an error exactly when the catalog is empty; otherwise the model that `ChooseBestModel` picks within the family that `ChooseBestFamily` picks from the grouped catalog, both under the budget that defaults to 60% of the balance; that model is a catalog aircraft of the selected family |
| SimpleManager.ParsePrice | modules/simpleAircraftManager.js:312-314 | the digits of the text, in order, read as one number; 0 without digits |
| SimpleManager.ParsePriceIdempotent | modules/simpleAircraftManager.js:122 | re-parsing the digits gives the same price, which is never negative |
| SimpleManager.ParsePriceIgnoresSeparators | modules/simpleAircraftManager.js:313 | text without digits inside a price changes nothing |
| SimpleManager.RowOffer | modules/simpleAircraftManager.js:100-125 | a row of ten or more cells yields an offer exactly when the link text is not empty and the availability contains `yes`; its fields are the trimmed cells, and its numeric price is the parsed price text |
| SimpleManager.ScrapeRow | modules/simpleAircraftManager.js:99-126 | a row of eight or nine cells throws, a shorter one is skipped, a longer one yields its offer if any |
| SimpleManager.ScrapeRows | modules/simpleAircraftManager.js:97-128 | a throwing row aborts the page; otherwise the offers of the rows in order, each with its numeric price read from its price text |
| SimpleManager.CheapestPreferred | modules/simpleAircraftManager.js:207-212 | the first of the cheapest offers whose model contains `A320neo`, as the stable sort puts it first; `None` exactly when there is none |
| SimpleManager.CheapestPreferredMin | modules/simpleAircraftManager.js:207-212 | the chosen offer is an `A320neo` offer no dearer than any other |
| SimpleManager.RecommendedOffer | modules/simpleAircraftManager.js:201-217 | an offer is recommended exactly when there are offers, and it is one of them |
| SimpleManager.RecommendFirstOverlap | modules/simpleAircraftManager.js:202-205 | the first overlapping offer is taken, with no exact tier |
| SimpleManager.RecommendWithoutName | modules/simpleAircraftManager.js:197-205 | a missing recommendation takes the first offer |
| SimpleManager.RecommendFallbacks | modules/simpleAircraftManager.js:207-217 | without an overlap, the cheapest `A320neo` is taken, and failing that the first offer |
| SimpleManager.ParseAIRecommendation | modules/simpleAircraftManager.js:191-229 | the offer recommended for the `EMPFEHLUNG:` line, present exactly when there are offers; the total is price times quantity; quantity 1 when no `ANZAHL:` label has digits (`zwei`), otherwise the leftmost number; the default reasoning when no `GRUND:` matches, otherwise the leftmost match |
| SimpleManager.RecommendationCost | modules/simpleAircraftManager.js:122-219 | for scraped offers the total is the parsed price text times the quantity |
| SimpleManager.ManageFleet | modules/simpleAircraftManager.js:234-293 | no purchase exactly when the fleet is not empty; no aircraft exactly when the market is also empty; otherwise exactly `ParseAIRecommendation` of the reply over the market offers |
| StationAnalyzer.CodeTailAt | services/stationAIAnalyzer.js:124 | `\s*\(([A-Z]{3})\)\s*-\s*(.+)`: a code of three letters and a non-empty country on one line |
| StationAnalyzer.StationAt | services/stationAIAnalyzer.js:124 | the lazy name ends at the first code part on its line, with the give-back case that yields a blank name |
| StationAnalyzer.StationMatch | services/stationAIAnalyzer.js:124-133 | no match exactly when no position matches, otherwise the leftmost `STATION_i:` line of the required form; name and country trimmed, a three-letter code |
| StationAnalyzer.StationLineMatches | services/stationAIAnalyzer.js:124 | a label followed on its line by a name and a code part matches there |
| StationAnalyzer.RouteAt | services/stationAIAnalyzer.js:126 | the lazy route ends at the first dash followed by text, which runs to the next stop label |
| StationAnalyzer.RouteMatch | services/stationAIAnalyzer.js:126 | no match exactly when no position matches, otherwise the leftmost `ROUTE_i:` match |
| StationAnalyzer.RouteWithoutDash | services/stationAIAnalyzer.js:126 | a reply without a dash has no route match |
| StationAnalyzer.ExtractPassengerCount | services/stationAIAnalyzer.js:181-184 | the first number followed by a passenger word, or 100 |
| StationAnalyzer.PassengerCountFirst | services/stationAIAnalyzer.js:182 | the leftmost such number is the count |
| StationAnalyzer.EstimateStationCost | services/stationAIAnalyzer.js:189-192 | always 0 |
| StationAnalyzer.StationEntry | services/stationAIAnalyzer.js:128-139 | a station of rank `i` exactly when the `STATION_i:` line matches, at no cost |
| StationAnalyzer.StationEntryFields | services/stationAIAnalyzer.js:129-137 | the station carries the captures; `Station i Empfehlung` when no `GRUND_i:` position matches; `hub ↔ code` with 100 passengers when no `ROUTE_i:` position matches (no dash included); otherwise the route and the count read from the route text |
| StationAnalyzer.Pushed | services/stationAIAnalyzer.js:121-140 | the pushed stations are the candidates found, in ascending rank, each once |
| StationAnalyzer.PriorityOrder | services/stationAIAnalyzer.js:150-155 | a permutation; the station of the priority rank moves to the front when there is one; otherwise nothing moves |
| StationAnalyzer.TopPriority | services/stationAIAnalyzer.js:143-146 | 1 when no `PRIORITÄT:` label is followed by digits (`hoch` included); otherwise the leftmost such number |
| StationAnalyzer.AscendingWithout | services/stationAIAnalyzer.js:153 | removing one station keeps the ranks rising |
| StationAnalyzer.FrontSorted | services/stationAIAnalyzer.js:153 | the priority station followed by the rest in rank order is in comparator order |
| StationAnalyzer.PriorityOrderSorted | services/stationAIAnalyzer.js:150-155 | the order is the one `sort` produces with the source's comparator |
| StationAnalyzer.StationEntryFound | services/stationAIAnalyzer.js:128 | the number `i` has a station exactly when its line matches |
| StationAnalyzer.FoundMembers | services/stationAIAnalyzer.js:123-140 | the station of number `i` is found exactly when its line matches |
| StationAnalyzer.OrderedStationsMembers | services/stationAIAnalyzer.js:123-155 | at most five stations, ranks in 1..5, cost 0, and rank `i` is present exactly when its line matches |
| StationAnalyzer.ParseStationRecommendations | services/stationAIAnalyzer.js:120-176 | the loop pushes the match of every number, then sorts by priority; the result has all stations affordable, cost 0, and the first station recommended first |
| StationAnalyzer.PriorityStationFirst | services/stationAIAnalyzer.js:143-155 | a priority naming a recommended station puts that station first |
| StationAnalyzer.PriorityFront | services/stationAIAnalyzer.js:151-153 | with rising ranks, the priority station goes to the front |
| StationAnalyzer.SelectStationToOpen | services/stationAIAnalyzer.js:197-211 | `null` for a missing or empty list, otherwise the first station |
| StationAnalyzer.SelectRecommendedFirst | services/stationAIAnalyzer.js:197-211 | the station selected to open is the first recommended |
| StationAnalyzer.AnalyzeBestStations | services/stationAIAnalyzer.js:12-115 | the remaining budget is the balance minus the aircraft deposits, all of it available, with no station or staff costs; the plan holds the ordered stations, the reply's priority, a total cost of 0, every station affordable, the first station as the recommendation and a budget analysis of the remaining budget at no cost; the aircraft info carries the model, quantity, passengers and range of the recommended aircraft |
| DecisionLog.MaxId | services/decisionLogger.js:44 | an upper bound of every id in the log |
| DecisionLog.WithOutcome | services/decisionLogger.js:64-76 | nothing is written exactly when no record has the id; the ids are kept position by position |
| DecisionLog.WithOutcomeFirst | services/decisionLogger.js:66-71 | only the first record with the id changes, and only its outcome, profitability and update time |
| DecisionLog.CountOutcome | services/decisionLogger.js:107-108 | counts at most the number of records |
| DecisionLog.OutcomesBounded | services/decisionLogger.js:107-108 | successes and failures together are at most the total |
| DecisionLog.CategoryCountsAreMembers | services/decisionLogger.js:104 | a key per category that occurs, holding the number of its records |
| DecisionLog.CategoryCountsTotal | services/decisionLogger.js:102-104 | the category counts add up to the number of records |
| DecisionLog.AnalyticsConsistent | services/decisionLogger.js:89-122 | the total is the length, the categories are exactly those that occur, the counts add up to the total, and successes plus failures stay within it |
| DecisionLog.SummaryOf | services/decisionLogger.js:147-159 | the success rate is between 0 and 1 (0 for an empty log); the categories are distinct and exactly those that occur; the latest five records |
| DecisionLog.DecisionLogger.constructor | services/decisionLogger.js:5-22 | a missing file is created empty, and every stored id is below the next id |
| DecisionLog.DecisionLogger.LogDecision | services/decisionLogger.js:42-62 | the record is appended with no outcome; its id is fresh; an unreadable file is replaced by the record alone |
| DecisionLog.DecisionLogger.UpdateDecisionOutcome | services/decisionLogger.js:64-76 | an unknown id leaves the file as it is, and otherwise the logged update is written |
| DecisionLog.DecisionLogger.DecisionsByCategory | services/decisionLogger.js:78-81 | the records of the category, in log order and with their multiplicity (the log filtered) |
| DecisionLog.DecisionLogger.RecentDecisions | services/decisionLogger.js:83-87 | the records stamped after `now` minus `hours` (default 24), in log order (the log filtered) |
| DecisionLog.CategoryAfterAppend | services/decisionLogger.js:78-81 | appending a record extends the records of its category by it, and only those |
| DecisionLog.RecentAfterAppend | services/decisionLogger.js:83-87 | appending a record adds it to the recent ones exactly when it is after the cutoff |
| DecisionLog.DecisionLogger.GetDecisionAnalytics | services/decisionLogger.js:89-122 | the `forEach` loop computes the analytics of the log |
| DecisionLog.DecisionLogger.GetAnalytics | services/decisionLogger.js:147-159 | `SummaryOf` the stored log: the total, a success rate in [0, 1], the distinct categories that occur, and the last five records |
| BalanceService.IndexOf | services/balanceService.js:42 | the first index at which the pattern occurs, `None` exactly when it occurs nowhere |
| BalanceService.ReplaceFirst | services/balanceService.js:42 | a text without the pattern is unchanged, and a pattern at the start is replaced |
| BalanceService.ReplaceFirstAt | services/balanceService.js:42 | only the first occurrence is replaced |
| BalanceService.GetCurrentBalance | services/balanceService.js:33-70 | not found exactly when the link, the amount span or a non-empty amount text is missing; otherwise the result is `ReadAmount` of the trimmed amount text: `Ok` exactly when the comma-stripped text reads as a number, with that number negated in a `bad` span and the currency the rest of the link text, and otherwise `NotNumeric` carrying the trimmed text |
| BalanceService.GroupedAmount | services/balanceService.js:38-61 | an amount such as `1,250,000` reads as its digits in order (1250000), negative in a `bad` span |
| BalanceService.SliceFrom | services/balanceService.js:143 | `slice(begin)` keeps a suffix whose length follows the sign of `begin` |
| BalanceService.HistorySliceAsWritten | services/balanceService.js:143 | `history.slice(-limit)` as written: a suffix, with `limit` entries for a positive limit |
| BalanceService.ZeroLimitReturnsAll | services/balanceService.js:143 | as written, a limit of 0 returns the whole history |
| BalanceService.NegativeLimitDropsOldest | services/balanceService.js:143 | as written, a negative limit drops the oldest entries instead of returning none |
| BalanceService.LatestEntries | services/balanceService.js:134-143 | the latest entries, at most `limit` of them, and none for a limit that is not positive |
| BalanceService.LatestEntriesAgree | services/balanceService.js:143 | for a positive limit the corrected reading equals the source's slice |
| BalanceService.CappedAppend | services/balanceService.js:109-114 | after appending and capping, the new entry is last, behind the latest 999 old entries |
| BalanceService.MaxOf | services/balanceService.js:226 | `Math.max(...)`: an element that bounds all |
| BalanceService.MinOf | services/balanceService.js:227 | `Math.min(...)`: an element bounded by all |
| BalanceService.SumBounds | services/balanceService.js:228 | the sum lies between n·min and n·max |
| BalanceService.MeanBounds | services/balanceService.js:228 | the average lies between min and max |
| BalanceService.ChangePercent | services/balanceService.js:230 | 0 when the oldest balance is 0; otherwise its sign is the sign of the change |
| BalanceService.StatisticsOf | services/balanceService.js:204-236 | no history exactly for `[]`; otherwise latest and oldest figures, an attained min and max that bound every amount, an average between them, and the change with a matching percent sign |
| BalanceService.BalanceHistory.constructor | services/balanceService.js:9-12 | the history file is as found |
| BalanceService.BalanceHistory.SaveBalanceHistory | services/balanceService.js:86-130 | the file holds the last 1000 of the old history plus the new entry, stamped with the clock as its id, and the count returned is between 1 and 1000 |
| BalanceService.BalanceHistory.GetBalanceHistory | services/balanceService.js:137-153 | `history.slice(-limit)` as written, with `limit` defaulting to 100; for a positive limit the latest `limit` entries; `[]` for a missing or unreadable file |
| BalanceService.BalanceHistory.GetBalanceStatistics | services/balanceService.js:204-206 | the statistics of the latest 1000 entries; no history exactly when the file reads empty |
| BalanceUtils.Affordable | utils/balanceUtils.js:37-46 | affordable exactly when the balance covers the amount; the shortfall is the missing part and 0 exactly when affordable; approval exactly when affordable |
| BalanceUtils.AffordableMonotone | utils/balanceUtils.js:40-41 | a larger balance affords whatever a smaller one does, with no larger shortfall |
| BalanceUtils.SafeSpendingOf | utils/balanceUtils.js:62-68 | safe plus reserved is the balance, and the safe amount is the floor of balance·percentage/100 |
| BalanceUtils.SafeSpendingBounds | utils/balanceUtils.js:62-67 | for a balance not below 0 and a percentage in 0..100, both parts lie between 0 and the balance, and the safe amount is monotone in the percentage |
| BalanceUtils.FormatBalance | utils/balanceUtils.js:109-113 | the positive mark exactly for a positive balance, with the currency and the amount |
| BalanceUtils.LogBalanceCheck | utils/balanceUtils.js:121-130 | a requirement line exactly for a given nonzero amount, approved exactly when it is affordable |
| BalanceUtils.StatusMatchesSign | utils/balanceUtils.js:110 | a `good` span shows the positive mark with an amount not below 0, and a nonzero `bad` one shows the negative mark below 0 |
| BalanceUtils.QuickBalanceCheck | utils/balanceUtils.js:16-25 | reads the balance and appends it to the capped history; a failed read leaves the history alone |
| BalanceUtils.CanAfford | utils/balanceUtils.js:33-51 | the verdict on the balance just read, with the history file then holding the capped append of that balance; or the read error with the history unchanged |
| BalanceUtils.GetSafeSpendingAmount | utils/balanceUtils.js:59-75 | the safe amount of the balance just read at the given percentage, 80 by default, with the history file then holding the capped append of that balance; or the read error with the history unchanged |
| BalanceUtils.GetBalanceStats | utils/balanceUtils.js:81-88 | the statistics of the latest 1000 entries |

## Left out

- Browser automation is not modelled: navigation, waiting, cookies, login checks and `loadBalanceWithNewSession`/`emergencyBalanceCheck`. A page's content arrives as a value instead: rows, family links, the balance link.
- The AI calls and the prompt texts are not modelled. Each reply is an input string. The `existingStations` argument and the hub and AI-context parts of the prompts appear only in prompt text, so they are not modelled.
- Logging to the console, the report file of `generateReport` and the `decisionLogger` calls inside `manageFleet` are not modelled, since none of them feeds a decision.
- The clock is a parameter: `now` in milliseconds. ISO timestamps are milliseconds, and `Date.now()` ids are the value passed in.
- `generateId` (time plus `Math.random`) is replaced by a counter, which keeps ids fresh.
- `toLocaleString` formatting of amounts is not modelled. `FormatBalance` keeps the mark, the currency and the number.
- `BalanceService.GetCurrentBalance`: `parseFloat` is modelled by `parseInt`, so a fraction or exponent in the amount is dropped. Both read leading white space and one `+` or `-` sign alike (`-5` is −5, `+5` is 5). A `0x` prefix is read as hexadecimal here (`0x10` is 16, and a bare `0x` gives `NotNumeric`), where `parseFloat` stops at the `x` and stores 0. Any other amount with no digit after the sign gives the `NotNumeric` error, where the source stores `NaN`, or a number when the text starts with a decimal point (`parseFloat(".5")` is 0.5) or spells `Infinity`.
- `BalanceService.StatisticsOf`: the average, the percentage and the duration are exact reals, not doubles.
- `BalanceUtils.SafeSpendingOf`: it is the exact floor of amount·percentage/100. The source multiplies by the double `percentage / 100`, which can land just below the exact value. For example, 100 at 29% gives 28.
- `BalanceUtils.Affordable`: `affordabilityRatio` (`balance.amount / amount`) is left out, since nothing reads it. The recommendation text becomes `NeedMore(amount - balance)`.
- `AircraftAnalyzer.ChooseBestModel`: the 10% accuracy checks compare `10·|total − estimate| > total` on integers. Doubles give the same answer for integers within 2^53.
- `Catalog.GroupValues`: `Object.values` is modelled in key insertion order. JavaScript lists integer-like keys (a family named `737`, say) first in ascending order, so for such names the model's group order differs from the source's.
- `Catalog.CatalogStore.GetAvailableAircraft`: the cache write always succeeds. The source catches a failed write and goes on with the old cache file (services/aircraftDataService.js:96-98).
- `Catalog.CatalogStore.GetAllAircraftFamilies`: the cache write always succeeds. The source catches a failed write and keeps the old family cache (services/aircraftDataService.js:121-123).
- `DecisionLog.DecisionLogger.LogDecision`: the log write always succeeds. `writeLogFile` catches a failed write and leaves the old file (services/decisionLogger.js:37-39). The same holds for `UpdateDecisionOutcome`.
- `BalanceService.BalanceHistory.SaveBalanceHistory`: the history write always succeeds. The source rethrows a failed write as an error (services/balanceService.js:126-129).
- `DecisionLog.CategoryCountsAreMembers`: category counts are a map from names to counts. A JavaScript object literal also has inherited keys, so a category named `constructor` starts from a function rather than `undefined` (services/decisionLogger.js:104), and `__proto__` cannot be an own key. The same goes for family names in `Catalog.GroupAircraftByFamily` (services/aircraftDataService.js:298). The model treats every name as an ordinary key.
- `budgetMatch` in `parseStationRecommendations` is computed and never used, so it is not modelled.
- `AnalysisBudget`: `!budget` is true for a missing or zero budget. A `NaN` budget cannot arise from the integer inputs modelled here.
- Text handling is on Unicode code points, case folding covers ASCII and `ÄÖÜ`, and white space is the ECMAScript set.

## Findings

| source | as written | input that shows it | evidently intended | confidence | as-written member | corrected member |
|---|---|---|---|---|---|---|
| services/balanceService.js:143 | `history.slice(-limit)` | `getBalanceHistory(0)` on a non-empty history returns every entry, because `slice(-0)` is `slice(0)`; a negative limit drops the oldest entries | the latest entries, at most `limit` of them | not executed | BalanceService.ZeroLimitReturnsAll | BalanceService.LatestEntries |
