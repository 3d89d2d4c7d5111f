# Real-estate ROI finder: a Dafny model of its core

The application loads scraped property listings from a spreadsheet and works out what each one would earn as a rental. It does this from several places:

- the two listing loaders (`lib/loadListings.js` and `lib/loadListings.ts`, the second with a one-hour cache and rent/NOI/cap-rate estimates);
- the investor metrics of `lib/invest.ts`;
- the `GET /api/market-summary` route, which filters listings by hard rules and a location parsed from the address and averages what is left;
- the CSV/XLSX uploader (`components/CsvRoiUploader.jsx`), which reads money and number cells, picks a listing URL, tells rentals from sales and ranks the rows by cap rate;
- the Greater Vancouver search (`components/GreaterVancouverSearch.jsx`), which filters, estimates and ranks up to 500 rows;
- the quick ROI of `components/RealEstateROIAnalyzer.tsx` and the merge of its area-search results;
- the helpers and screen state of `components/OpeningScreen.jsx`: page buttons, the range label, the cap-rate histogram, and the hero, filter and paging handlers;
- the pure helpers of the `find-good-roi` scraper route: `clean`, the listing-link extraction and the request dedupe.

Modules:

- `Js` is the slice of JavaScript values the code relies on: nullish and truthy values, `??` and `||` chains, `String()` and `Number()`.
- `Numeral` covers decimal numerals.
- `Coerce` is the `num` coercion that three files share.
- `Pipeline` is the map-then-filter of the loaders.
- `Sorting` is the stable descending sort by cap rate.
- `Finance` is amortisation.

The spreadsheet, the uploaded file, the server responses, the page the scraper visits and the clock are all inputs to the model.

## Model

| member | source | states |
|---|---|---|
| Js.Coalesce | lib/loadListings.js:38-41 | `a ?? b ?? …` yields the first operand that is not null or undefined, and the last operand when all are |
| Js.CoalesceNullish | lib/loadListings.js:38-41 | a `??` chain is nullish exactly when every operand is |
| Js.OrChain | lib/loadListings.js:37 | `a \|\| b \|\| …` yields the first truthy operand, and the last operand when none is |
| Js.OrChainTruthy | lib/loadListings.js:37 | an `\|\|` chain is truthy exactly when some operand is |
| Js.NumberNotBlank | lib/loadListings.ts:34 | a number never prints as a blank string, so `pickFirst` accepts every number |
| Numeral.IntRoundTrip | lib/loadListings.ts:21 | `Number(String(i))` gives back every integer `i` |
| Numeral.IntegralRoundTrip | lib/loadListings.ts:21 | `Number(String(x))` gives back every whole-valued number `x` |
| Numeral.BlankIsZero | lib/loadListings.ts:21 | `Number` of an all-white-space string is 0 |
| Numeral.ParseNonNumeralStart | lib/loadListings.ts:21-22 | text that starts with something other than a digit, sign or point is not a number |
| Text.TrimIsSlice | lib/loadListings.ts:27 | `trim()` removes white space at both ends and nothing else: the result is a slice with only white space outside it |
| Text.TrimIdempotent | lib/loadListings.ts:27 | trimming twice is the same as trimming once |
| Text.LowerConcat | components/GreaterVancouverSearch.jsx:36 | lower-casing distributes over concatenation |
| Coerce.Num | lib/loadListings.ts:18-23 | `num`: null, undefined and "" give null; a number is itself; a boolean gives null; a string that is only `$ , %` and white space gives 0 |
| Coerce.StripNoise | lib/loadListings.ts:21 | the `/[$,%\s,]/g` replacement leaves none of those characters |
| Coerce.StripNoiseConcat | lib/loadListings.ts:21 | the replacement works character by character, so it distributes over concatenation |
| Coerce.NumIgnoresNoise | lib/loadListings.ts:21 | `num` reads a string the same as the string with its noise removed |
| Coerce.BooleanIsNotNumeral | lib/loadListings.ts:21-22 | "true" and "false" are not numerals |
| Coerce.NumReadsDollarInteger | lib/loadListings.ts:21 | a whole amount written with a leading `$` reads back as that amount |
| Coerce.NumReadsPercentInteger | lib/loadListings.ts:21 | a whole number written with a trailing `%` reads back as that number |
| Pipeline.MapFilter | lib/loadListings.js:32-49 | map each row with its index, keep what the predicate accepts: no more results than rows, and every result is accepted |
| Pipeline.MapFilterFromRows | lib/loadListings.js:33-34 | every result is the mapping of the row at its id |
| Pipeline.MapFilterIdsRise | lib/loadListings.js:32-49 | ids strictly rise, so the results keep the rows' order |
| Pipeline.MapFilterNoneLost | lib/loadListings.js:49 | every row whose mapping passes the filter appears among the results |
| Pipeline.MapFilterIndexed | lib/loadListings.ts:90-134 | results are exactly the passing rows' mappings, in row order, with in-range ids |
| ListingsJs.RowToListing | lib/loadListings.js:33-47 | a listing's id is its row index and its address the `||` chain of the address cells; each number field is the Column of its own aliases, so rent, NOI and cap rate come from the file only |
| ListingsJs.Load | lib/loadListings.js:12-49 | a missing file gives no listings; otherwise at most one listing per row, each with an address, price, beds, baths or square feet |
| ListingsJs.LoadRows | lib/loadListings.js:32-49 | the listings are exactly the mapped rows that pass the junk filter, in row order |
| ListingsJs.AddressTruthy | lib/loadListings.js:37 | the address is truthy exactly when some address column is, and "" otherwise |
| ListingsJs.EmptyCellStopsChain | lib/loadListings.js:38 | an empty `Price_Listing` cell stops the `??` chain, so the price is null even when `Price` holds a number |
| ListingsJs.Column | lib/loadListings.js:38-45 | a field is `num` of the first alias cell that is neither missing nor null, and null when every alias cell is missing or null |
| ListingsTs.StrOf | lib/loadListings.ts:25-29 | `str`: nullish gives "", anything else its trimmed string |
| ListingsTs.FilledIsNotBlank | lib/loadListings.ts:34 | `pickFirst` accepts a value exactly when it is not nullish and not blank once trimmed |
| ListingsTs.PickFirstSpec | lib/loadListings.ts:31-37 | `pickFirst` returns the first accepted value, and undefined exactly when there is none |
| ListingsTs.PickFirst | lib/loadListings.ts:31-37 | the result is undefined or a candidate that is neither nullish nor blank |
| ListingsTs.TextOrEmpty | lib/loadListings.ts:25-28 | `str(v ?? "")` is "" for a nullish value and the trimmed text of any other |
| ListingsTs.AddressOf | lib/loadListings.ts:92-102 | the address is "" when no address cell is filled, and otherwise the trimmed text of the first filled one |
| ListingsTs.EstimateMonthlyRent | lib/loadListings.ts:40-43 | the rent estimate is a whole amount within one half of `base + beds·perBed` (two beds when unknown), and 0 when that sum is below one half |
| ListingsTs.DefaultRentEstimate | lib/loadListings.ts:40-43 | with no bed count the estimate is 2600 |
| ListingsTs.EstimateAnnualNOI | lib/loadListings.ts:45-48 | NOI is twelve months of rent less the expense ratio, rounded to a whole amount |
| ListingsTs.CalcCapRate | lib/loadListings.ts:50-53 | the cap rate is null exactly when NOI or price is missing, zero or not positive; otherwise it is NOI/price·100 rounded to two decimals, and never positive for a negative NOI |
| ListingsTs.RowToListing | lib/loadListings.ts:90-132 | the address is the first filled address cell as trimmed text, and "" when none is filled; price, beds, baths and square footage come from their columns; rent, NOI and cap rate come from the file when present and are estimated otherwise, so rent and NOI are always set |
| ListingsTs.Limited | lib/loadListings.ts:82 | at most the first MAX_ROWS rows are read, all of them when there are fewer |
| ListingsTs.Normalize | lib/loadListings.ts:82-134 | at most MAX_ROWS listings, each passing the junk filter |
| ListingsTs.NormalizeRows | lib/loadListings.ts:82-134 | the listings are exactly the mapped rows of the first MAX_ROWS that pass the filter, in order |
| ListingsTs.NormalizeHasRentAndNoi | lib/loadListings.ts:111-118 | every loaded listing has a rent and an NOI |
| ListingsTs.BlankCellSkipped | lib/loadListings.ts:103 | `pickFirst` skips an empty `Price_Listing` cell and reads `Price` |
| ListingsTs.ListingStore.constructor | lib/loadListings.ts:56-59 | the cache starts empty |
| ListingsTs.ListingStore.Load | lib/loadListings.ts:61-138 | within CACHE_MS of the last load the cached listings are returned untouched; otherwise the file is normalised (a missing file gives []) and cached with the current time |
| Invest.Clamp | lib/invest.ts:20-22 | `clamp` stays within `[lo, hi]`, leaves values inside unchanged, and gives `lo` whenever `hi < lo` |
| Invest.MortgagePaymentMonthly | lib/invest.ts:24-34 | no principal or no term gives a payment of 0 |
| Invest.MortgageRepays | lib/invest.ts:24-34 | the payment is positive and pays the loan off in exactly `12·amortYears` months; at 0% it is principal/n; at a positive rate it exceeds the first month's interest |
| Invest.NoPriceMetrics | lib/invest.ts:42-53 | with no positive price everything is null except NOI, which is the listing's |
| Invest.NoRentMetrics | lib/invest.ts:55-75 | with a price and no positive rent only the loan and the mortgage are set |
| Invest.LoanBounds | lib/invest.ts:55-61 | the loan lies between 0 and the price, the mortgage is non-negative, and the mortgage repays the loan over the term |
| Invest.RentBounds | lib/invest.ts:77-81 | operating costs lie between 0 and the effective rent, which lies between 0 and the rent |
| Invest.RentMetrics | lib/invest.ts:77-94 | with a price and a rent every metric is set; NOI is twelve months of effective rent less opex; cash flow also subtracts the mortgage |
| Invest.CashOnCash | lib/invest.ts:87-89 | cash-on-cash is null exactly when no down payment is made, and is otherwise the year's cash flow as a percentage of the down payment |
| Invest.Dscr | lib/invest.ts:91-94 | DSCR is null exactly when there is no mortgage payment (a 100% down payment or no term), and is otherwise net rent over the payment |
| Invest.DefaultLoan | lib/invest.ts:55-56 | with the default 20% down payment, a 500000 price gives a 400000 loan |
| MarketSummary.Split | app/api/market-summary/route.ts:16 | `split(",")` gives at least one piece |
| MarketSummary.SplitJoin | app/api/market-summary/route.ts:16 | joining the pieces of `split` back with the separator gives the original string |
| MarketSummary.SplitPiecesFree | app/api/market-summary/route.ts:16 | no piece contains the separator |
| MarketSummary.TrimmedParts | app/api/market-summary/route.ts:16 | the kept parts are non-empty and trimmed |
| MarketSummary.TrimmedPartsAppend | app/api/market-summary/route.ts:16 | the parts keep the order of the pieces: one more piece at the end adds its trimmed text at the end exactly when that is not empty |
| MarketSummary.TrimmedPartsMembers | app/api/market-summary/route.ts:16 | a text is a part exactly when it is the non-empty trimmed text of some piece, so no non-blank piece is lost |
| MarketSummary.FindProvinceLeftmost | app/api/market-summary/route.ts:19-20 | the province match is the leftmost province code that stands as a whole word |
| MarketSummary.FindProvinceNone | app/api/market-summary/route.ts:19-20 | with no code anywhere the province is unknown |
| MarketSummary.FindProvince | app/api/market-summary/route.ts:19 | a match found is one of the thirteen province and territory codes |
| MarketSummary.LocationOfParts | app/api/market-summary/route.ts:17-31 | the country is always Canada; the province is the first code standing as a word in the last part, upper-cased, and Unknown when there is none; the city is the second part after a street-like first part when the second is non-empty, else a non-empty first part, else Unknown |
| MarketSummary.ParseLocation | app/api/market-summary/route.ts:14-32 | a falsy address gives Unknown everywhere; otherwise the location is the one read from the address's trimmed, non-blank comma-separated parts, so the country is Canada and the province is Unknown or a code |
| MarketSummary.CityIsAPart | app/api/market-summary/route.ts:16-29 | for the parts of an address the city is Unknown when there is no part and otherwise one of the parts, the second one after a street-like first part |
| MarketSummary.SurreyExample | app/api/market-summary/route.ts:14-32 | a street, city and postal-code address gives city Surrey and province BC |
| MarketSummary.SaintAlbertExample | app/api/market-summary/route.ts:23-28 | "St. Albert, AB" counts as a street, so its city is "AB" |
| MarketSummary.Avg | app/api/market-summary/route.ts:34-37 | the average is null exactly for no numbers, and otherwise times the count gives the sum |
| MarketSummary.AvgAtLeast | app/api/market-summary/route.ts:34-37 | an average of numbers at least `lo` is at least `lo` |
| MarketSummary.Param | app/api/market-summary/route.ts:42-44 | a missing or empty query parameter reads as "any"; any other value is kept |
| MarketSummary.FilterPasses | app/api/market-summary/route.ts:48-64 | every counted listing passes the hard rules and the location filter |
| MarketSummary.FilterCounts | app/api/market-summary/route.ts:48-64 | each listing that passes is counted as often as it occurs, and no other listing is counted |
| MarketSummary.FilterAppend | app/api/market-summary/route.ts:48-64 | the counted listings keep their order: one more listing at the end is added at the end exactly when it passes |
| MarketSummary.CountedPassHardRules | app/api/market-summary/route.ts:55-57 | every counted listing has a price of at least 200000 and positive beds and baths |
| MarketSummary.PresentEmpty | app/api/market-summary/route.ts:66-68 | no numbers are left exactly when every field is missing or not numeric |
| MarketSummary.Summarize | app/api/market-summary/route.ts:48-73 | the count is at most the number of listings, and with nothing counted all three averages are null |
| MarketSummary.SummaryOf | app/api/market-summary/route.ts:66-73 | the count is the number of kept listings, and with none all three averages are null |
| MarketSummary.AvgCapRateNull | app/api/market-summary/route.ts:66-72 | the average cap rate is null exactly when no counted listing has a numeric cap rate |
| MarketSummary.AvgPriceAboveMinimum | app/api/market-summary/route.ts:55-73 | the average price is null exactly when nothing is counted, and otherwise is at least HARD_MIN_PRICE |
| MarketSummary.FilterMonotone | app/api/market-summary/route.ts:59-61 | fixing a location that was "any" never admits more listings |
| MarketSummary.CountMonotone | app/api/market-summary/route.ts:59-71 | a narrower query never counts more listings |
| Sorting.SortDesc | components/CsvRoiUploader.jsx:245 | the sort returns as many rows as it was given |
| Sorting.SortDescCorrect | components/CsvRoiUploader.jsx:245 | the sort by `capRate ?? -Infinity` is descending (nulls last) and is a permutation |
| Sorting.SortDescStable | components/CsvRoiUploader.jsx:245 | the sort is stable: rows with equal cap rates keep their order |
| Sorting.PrefixSorted | components/GreaterVancouverSearch.jsx:65-66 | the first 500 of a sorted sequence are still sorted |
| CsvRoiUploader.ParseMoney | components/CsvRoiUploader.jsx:8-11 | `parseMoney`: nullish gives null and a number is itself |
| CsvRoiUploader.MoneyNeedsDigit | components/CsvRoiUploader.jsx:13 | text without a digit gives null |
| CsvRoiUploader.MoneyNullOnlyWithoutMatch | components/CsvRoiUploader.jsx:15-25 | text with a digit gives null exactly when the cleaned text holds no number match |
| CsvRoiUploader.FirstNumberParses | components/CsvRoiUploader.jsx:21-25 | whatever the `/-?\d+(\.\d+)?/` match takes is a numeral `Number` accepts |
| CsvRoiUploader.FirstNumber | components/CsvRoiUploader.jsx:21 | a match of `-?\d+(\.\d+)?` is never empty |
| CsvRoiUploader.MatchLen | components/CsvRoiUploader.jsx:17-35 | a pattern match never runs past the end of the text |
| CsvRoiUploader.ReplaceAll | components/CsvRoiUploader.jsx:17-35 | removing the matches never lengthens the text |
| CsvRoiUploader.Keep | components/CsvRoiUploader.jsx:18-36 | removing a character class never lengthens the text |
| CsvRoiUploader.MoneyDollarThousands | components/CsvRoiUploader.jsx:8-26 | "$a,b" reads as the number with digits `ab`: the sign and the thousands comma are dropped |
| CsvRoiUploader.ParseNumber | components/CsvRoiUploader.jsx:28-31 | `parseNumber`: nullish gives null and a number is itself |
| CsvRoiUploader.NumberNeedsDigit | components/CsvRoiUploader.jsx:28-43 | text without a digit, `true` and `false` among them, gives null: cleaning only removes characters and the number match needs a digit |
| CsvRoiUploader.NumbersRunTogether | components/CsvRoiUploader.jsx:32-43 | two digit groups separated only by letters (none of them an `s`) read as one number: "3bed2" gives 32 |
| CsvRoiUploader.QualifiesAsWritten | components/CsvRoiUploader.jsx:50-58 | a cell gives the URL exactly when it is truthy and its trimmed string starts with `http` |
| CsvRoiUploader.FirstUrl | components/CsvRoiUploader.jsx:46-62 | a URL found is one that starts with `http` |
| CsvRoiUploader.GetUrlFromRow | components/CsvRoiUploader.jsx:46-62 | the URL found starts with `http://` or `https://`, and there is none exactly when none of the seven URL cells qualifies |
| CsvRoiUploader.FirstUrlNone | components/CsvRoiUploader.jsx:46-62 | no URL exactly when no candidate cell qualifies |
| CsvRoiUploader.FirstUrlFirst | components/CsvRoiUploader.jsx:46-62 | the URL is the trimmed text of the first qualifying cell |
| CsvRoiUploader.GetListingType | components/CsvRoiUploader.jsx:65-85 | a type text mentioning rent or lease, or a lease frequency, makes the row a rental |
| CsvRoiUploader.ListingTypeRental | components/CsvRoiUploader.jsx:65-85 | a row is a rental exactly when it has a lease amount or frequency, or its type text mentions rent or lease |
| CsvRoiUploader.CalcNoiAndCapRate | components/CsvRoiUploader.jsx:88-113 | NOI is null exactly when price or rent is missing or zero, and the cap rate is null exactly when NOI is |
| CsvRoiUploader.CapRateIsNoiShare | components/CsvRoiUploader.jsx:107-112 | cap rate × price = NOI × 100, and for a positive price the cap rate is positive exactly when NOI is |
| CsvRoiUploader.TaxDefaultsOnlyWhenNull | components/CsvRoiUploader.jsx:96-104 | a given tax is subtracted as is; a missing tax defaults to 1.2% of the price |
| CsvRoiUploader.RentRaisesNoi | components/CsvRoiUploader.jsx:96-105 | each dollar of monthly rent adds 12·(1 − vacancy − management) to NOI |
| CsvRoiUploader.AnalyzeRow | components/CsvRoiUploader.jsx:166-242 | a rental row is always kept; a for-sale row is kept exactly when its price is at least 250000; the kept row has the row's type, its URL, location and property type text, its square feet, tax, beds and baths as read from the first present column of each, a rental the rent from the file and a listing for sale its price |
| CsvRoiUploader.ForSaleHasNoFileRent | components/CsvRoiUploader.jsx:189-198 | a for-sale row never has a lease amount, so its rent is always the bed-count estimate |
| CsvRoiUploader.AnalyzeRowConsistent | components/CsvRoiUploader.jsx:189-242 | a kept listing for sale costs at least 250000, its rent is the rent rule's bed estimate and its NOI and cap rate are computed from that rent with the assumptions; a kept rental has no price, NOI or cap rate |
| CsvRoiUploader.Collect | components/CsvRoiUploader.jsx:166-243 | the loop keeps at most one entry per row |
| CsvRoiUploader.CollectConsistent | components/CsvRoiUploader.jsx:166-243 | every collected entry is consistent with the rent rule and the assumptions |
| CsvRoiUploader.Analyze | components/CsvRoiUploader.jsx:164-247 | the table is the collected entries sorted by cap rate descending, each consistent, with every null cap rate after every number |
| CsvRoiUploader.RentalsAllKept | components/CsvRoiUploader.jsx:201-217 | the table holds exactly as many rentals as the file has rental rows |
| GreaterVancouverSearch.CalcNoiAndCapRate | components/GreaterVancouverSearch.jsx:5-23 | NOI is null exactly when the price is zero or the rent missing or zero, and the cap rate is null exactly when NOI is |
| GreaterVancouverSearch.NoiKeepsEightySevenPercent | components/GreaterVancouverSearch.jsx:5-23 | NOI is 87% of the year's rent less tax (1.2% of the price when missing), insurance and 1% maintenance |
| GreaterVancouverSearch.SameAsUploader | components/GreaterVancouverSearch.jsx:5-23 | the search's NOI is the uploader's with 1200 insurance, 1% maintenance, 5% vacancy and 8% management |
| GreaterVancouverSearch.CapRateIsNoiShare | components/GreaterVancouverSearch.jsx:19-22 | cap rate × price = NOI × 100, and the cap rate has NOI's sign for a positive price |
| GreaterVancouverSearch.PricedRowIsTruthy | components/GreaterVancouverSearch.jsx:39 | a row passes the price filter only with a truthy price cell worth at least the minimum |
| GreaterVancouverSearch.TaxCell | components/GreaterVancouverSearch.jsx:47 | a nullish cell leaves the default tax, a text cell is kept as text, and any other cell is its number |
| GreaterVancouverSearch.EstRent | components/GreaterVancouverSearch.jsx:45-50 | the estimate is null exactly when the bed count (the fallback for a nullish cell, otherwise the cell as a number) is NaN; otherwise it is a whole amount within one half of `base + beds·perBed`, and 0 when that sum is below one half |
| GreaterVancouverSearch.LocationTextAsWritten | components/GreaterVancouverSearch.jsx:42 | the searched text is the location cell, or "" when it is nullish |
| GreaterVancouverSearch.FilterMembers | components/GreaterVancouverSearch.jsx:39-43 | a filter keeps exactly the rows that pass its test |
| GreaterVancouverSearch.Filter | components/GreaterVancouverSearch.jsx:39-43 | a filter never adds rows |
| GreaterVancouverSearch.Enrich | components/GreaterVancouverSearch.jsx:44-64 | an enriched row keeps its cells, its rent estimate is EstRent of the bed cell, without a rent it has no NOI or cap rate, with a tax cell that is not text it has no cap rate exactly when the rent is 0 or null, and its NOI and cap rate are NoiFor of its price, rent estimate and tax cell |
| GreaterVancouverSearch.NoiFor | components/GreaterVancouverSearch.jsx:5-22 | the cap rate is null exactly when the NOI is, and both are null without a rent |
| GreaterVancouverSearch.EnrichValues | components/GreaterVancouverSearch.jsx:5-22 | with no rent there is no NOI or cap rate; with a rent and a tax that is not text the NOI is 87% of twelve months' rent less the tax (1.2% of the price for an empty cell), 1200 insurance and 1% maintenance, and the cap rate times the price is 100 times the NOI |
| GreaterVancouverSearch.TextTaxValues | components/GreaterVancouverSearch.jsx:12-19 | with a rent and a text tax the NOI is twelve months' rent less the expense text read as a number, and NaN exactly when that text is not a numeral |
| GreaterVancouverSearch.CalcWithTextTax | components/GreaterVancouverSearch.jsx:5-22 | with a text tax, no price or no rent gives a null NOI and cap rate, and otherwise the result of reading the concatenated expenses back |
| GreaterVancouverSearch.TextTaxNoi | components/GreaterVancouverSearch.jsx:12-20 | the NOI and the cap rate are NaN exactly when the concatenated expense text is not a numeral; otherwise the NOI is a year of rent less the text's value |
| GreaterVancouverSearch.NoiOfExpenses | components/GreaterVancouverSearch.jsx:19-20 | NaN expenses give a NaN NOI and cap rate; otherwise the NOI is the gross rent less the expenses and the cap rate is the NOI as a percentage of the price |
| GreaterVancouverSearch.NoiOfExpensesCapRate | components/GreaterVancouverSearch.jsx:20 | cap rate × price = NOI × 100 |
| GreaterVancouverSearch.TextTaxWithoutNumeralIsNaN | components/GreaterVancouverSearch.jsx:14-19 | a text tax that starts with a letter or any other character no numeral starts with makes the NOI and the cap rate NaN, whatever the price and rent |
| GreaterVancouverSearch.NonNumeralTextIsNaN | components/GreaterVancouverSearch.jsx:19 | `Number` reads text whose first character is neither white space nor one a numeral starts with as NaN, whatever follows it |
| GreaterVancouverSearch.EnrichAll | components/GreaterVancouverSearch.jsx:44-64 | each row is enriched in place, in order |
| GreaterVancouverSearch.MatchedMembers | components/GreaterVancouverSearch.jsx:39-43 | rows pass exactly when priced and their location contains the lower-cased, trimmed query |
| GreaterVancouverSearch.Filtered | components/GreaterVancouverSearch.jsx:35-67 | the table shows as many rows as match when at most 500 match, and exactly 500 rows otherwise |
| GreaterVancouverSearch.FilteredRanked | components/GreaterVancouverSearch.jsx:35-67 | when no cap rate is NaN: at most 500 results, sorted by cap rate descending, every null cap rate after every number |
| GreaterVancouverSearch.FilteredRowsQualify | components/GreaterVancouverSearch.jsx:35-67 | every result is a listing that passes both filters, enriched as the rent rule gives |
| GreaterVancouverSearch.FilteredComplete | components/GreaterVancouverSearch.jsx:35-67 | when no more than 500 rows match, every matching row appears |
| GreaterVancouverSearch.Shown | components/GreaterVancouverSearch.jsx:65-66 | sorting then `.slice(0, 500)` keeps all rows up to 500, and 500 beyond |
| GreaterVancouverSearch.ShownBest | components/GreaterVancouverSearch.jsx:65-66 | a row the slice leaves out ranks no higher by cap rate than any row it keeps |
| GreaterVancouverSearch.FilteredBest | components/GreaterVancouverSearch.jsx:35-67 | when no cap rate is NaN, a matching listing missing from the table ranks no higher by cap rate than any row shown, so the table holds the best-ranked rows |
| GreaterVancouverSearch.BlankQueryKeepsAll | components/GreaterVancouverSearch.jsx:40-41 | an empty or blank query filters nothing |
| Finance.AmortizedPayment | lib/invest.ts:31-33 | at 0% the payment is an equal share of the principal |
| Finance.AmortizationRepays | lib/invest.ts:32-33 | the annuity payment pays the principal off in exactly n periods |
| Finance.BalanceNoInterest | lib/invest.ts:32 | at 0% each payment takes exactly its size off the balance |
| Finance.PaymentExceedsInterest | lib/invest.ts:33 | at a positive rate the payment exceeds the first period's interest |
| RoiAnalyzer.CalculateQuickRoi | components/RealEstateROIAnalyzer.tsx:6-39 | cash-on-cash is null exactly when there is no investment (price·0.23 ≤ 0), the cap rate is null exactly for a non-positive price, and annual cash flow is twelve months' |
| RoiAnalyzer.CashFlowRentSlope | components/RealEstateROIAnalyzer.tsx:18-25 | each dollar of rent adds 87 cents to the monthly cash flow |
| RoiAnalyzer.CapRateIgnoresFinancing | components/RealEstateROIAnalyzer.tsx:33-36 | the cap rate is a year of rent less 2.2% of the price and 1200 insurance, over the price |
| RoiAnalyzer.CashFlowBelowCapIncome | components/RealEstateROIAnalyzer.tsx:18-36 | the year's cash flow is the cap-rate income less 13% of a year's rent and twelve mortgage payments |
| RoiAnalyzer.LoanRepaid | components/RealEstateROIAnalyzer.tsx:7-16 | the 80% loan is paid off by the 360th payment, and each payment exceeds the first month's interest |
| RoiAnalyzer.CashOnCashSign | components/RealEstateROIAnalyzer.tsx:29-31 | for a positive price the cash-on-cash return has the sign of the year's cash flow |
| RoiAnalyzer.Merge | components/RealEstateROIAnalyzer.tsx:115-117 | the merge sets the four estimate keys and leaves every other key as it was |
| RoiAnalyzer.WithRoi | components/RealEstateROIAnalyzer.tsx:113-117 | there are no more results than elements in the response |
| RoiAnalyzer.WithRoiExact | components/RealEstateROIAnalyzer.tsx:113-117 | one result per element with a numeric price and rent, each that element merged, and nothing else |
| RoiAnalyzer.WithRoiCarriesEstimate | components/RealEstateROIAnalyzer.tsx:115-117 | every result carries the estimate made from its own price and rent |
| OpeningScreen.InsertAsc | components/OpeningScreen.jsx:188-191 | inserting into a strictly ascending list keeps it strictly ascending and adds exactly the new value |
| OpeningScreen.SortedDistinct | components/OpeningScreen.jsx:188-191 | `[...new Set(…)].sort` gives the distinct values, strictly ascending |
| OpeningScreen.InRange | components/OpeningScreen.jsx:188-191 | the range filter keeps exactly the values within 1..totalPages |
| OpeningScreen.PageNumbers | components/OpeningScreen.jsx:188-191 | the page numbers are strictly ascending and within 1..totalPages |
| OpeningScreen.PageNumbersSpec | components/OpeningScreen.jsx:188-191 | the page numbers are distinct, ascending and in range (at most seven); they include the first and last page, and the current page when it is in range |
| OpeningScreen.Expand | components/OpeningScreen.jsx:193-199 | with any page number there are buttons, and the last button is the last page number |
| OpeningScreen.PageButtons | components/OpeningScreen.jsx:187-201 | the loop emits the page numbers with an ellipsis before each jump of more than one |
| OpeningScreen.ExpandNumbers | components/OpeningScreen.jsx:193-199 | the numbered buttons are the page numbers, in order |
| OpeningScreen.ExpandFirst | components/OpeningScreen.jsx:193-199 | the first button is the first page number, never an ellipsis |
| OpeningScreen.ExpandEllipses | components/OpeningScreen.jsx:193-199 | an ellipsis sits only between two numbers more than one apart, and adjacent numbers are consecutive |
| OpeningScreen.RangeLabel | components/OpeningScreen.jsx:527-529 | with no results the label starts at 0, and it never ends past the total |
| OpeningScreen.RangeLabelBounds | components/OpeningScreen.jsx:527-529 | with no results the label is 0–0; otherwise it is a range within 1..total of at most a page, and a full page except on the last |
| OpeningScreen.PrevPage | components/OpeningScreen.jsx:539 | Prev never goes below page 1, and from page 2 on goes back one |
| OpeningScreen.NextPage | components/OpeningScreen.jsx:568 | Next never goes past the last page, and before it goes on one |
| OpeningScreen.PrevNextStayInRange | components/OpeningScreen.jsx:539-568 | Prev and Next keep a page within 1..totalPages, stopping at the ends |
| OpeningScreen.BucketOf | components/OpeningScreen.jsx:60-74 | a bucket found for a value is one whose range holds the value |
| OpeningScreen.BucketOfSpec | components/OpeningScreen.jsx:60-74 | a negative cap rate falls in no bucket; otherwise it is in bucket ⌊v/2⌋, with 10 and above in the last, and no other |
| OpeningScreen.BucketCounts | components/OpeningScreen.jsx:60-74 | the histogram has six bars, each counting the cap rates in its bucket |
| OpeningScreen.CountsAddUp | components/OpeningScreen.jsx:60-74 | the bars add up to the cap rates counted, never more than were given |
| OpeningScreen.CapRates | components/OpeningScreen.jsx:182 | the cap rates are non-nullish, at most one per item |
| OpeningScreen.CapRatesAppend | components/OpeningScreen.jsx:182 | the cap rates keep item order: one more item adds its cap rate at the end exactly when it is not nullish |
| OpeningScreen.CapRatesMembers | components/OpeningScreen.jsx:182 | a value is a cap rate exactly when some item has it as a non-nullish cap rate |
| OpeningScreen.Screen.constructor | components/OpeningScreen.jsx:18-38 | hero Canada/any/any, default filters, page 1, no results, one page |
| OpeningScreen.Screen.OnHeroCountryChange | components/OpeningScreen.jsx:295 | only the hero country changes |
| OpeningScreen.Screen.OnHeroProvinceChange | components/OpeningScreen.jsx:106-112 | a new hero province resets the hero city to any; nothing else changes |
| OpeningScreen.Screen.OnHeroCityChange | components/OpeningScreen.jsx:114-116 | only the hero city changes |
| OpeningScreen.Screen.ChangeFilters | components/OpeningScreen.jsx:170-173 | new filters send the page back to 1, and unchanged filters keep it |
| OpeningScreen.Screen.OnAnalyzeMarket | components/OpeningScreen.jsx:204-213 | the hero selection (country "any" when blank) becomes the filters' location, and the page goes back to 1 |
| OpeningScreen.Screen.OnClear | components/OpeningScreen.jsx:216-229 | the hero, the filters and the page return to their defaults |
| OpeningScreen.Screen.Prev | components/OpeningScreen.jsx:539 | one page back, stopping at 1 |
| OpeningScreen.Screen.Next | components/OpeningScreen.jsx:568 | one page on, stopping at the last page |
| OpeningScreen.Screen.GoTo | components/OpeningScreen.jsx:553 | a page button sets the page |
| OpeningScreen.Screen.ApplyResponse | components/OpeningScreen.jsx:138-163 | a response sets total and totalPages (a 0 falls back to 1) and moves to the server's page when it is non-zero and differs from the page the request was made for, otherwise leaves the page alone; a failure gives no results on one page and keeps the page |
| FindGoodRoi.Clean | app/api/find-good-roi/route.ts:23-25 | `clean` gives "" for nullish input and text with no white space at either end |
| FindGoodRoi.CleanSpec | app/api/find-good-roi/route.ts:23-25 | `clean` gives trimmed text with single spaces, drops no other character, and gives "" for nullish input |
| FindGoodRoi.CollapseSingleSpaced | app/api/find-good-roi/route.ts:24 | after `replace(/\s+/g, " ")` no two spaces are adjacent and no other white space is left |
| FindGoodRoi.CollapseKeepsText | app/api/find-good-roi/route.ts:24 | collapsing white space keeps every other character, in order |
| FindGoodRoi.Collapse | app/api/find-good-roi/route.ts:24 | `.replace(/\s+/g, " ")` is no longer than its input and starts with the first character, a white-space one turned into a space |
| FindGoodRoi.CleanTextIdempotent | app/api/find-good-roi/route.ts:24 | cleaning twice is the same as cleaning once |
| FindGoodRoi.Dedupe | app/api/find-good-roi/route.ts:213-215 | `dedupe` never returns more calls than it was given |
| FindGoodRoi.DedupeSpec | app/api/find-good-roi/route.ts:213-215 | at most one call per method and URL, in order of each key's first appearance, each being that key's last call, with every key kept |
| FindGoodRoi.FromEntries | app/api/find-good-roi/route.ts:214 | the map built from the calls has no more entries than there are calls |
| FindGoodRoi.LikelyMembers | app/api/find-good-roi/route.ts:147-157 | the kept anchors are exactly those whose href holds one of the six listing markers |
| FindGoodRoi.Likely | app/api/find-good-roi/route.ts:147-157 | the filter never adds links |
| FindGoodRoi.ExtractListings | app/api/find-good-roi/route.ts:159-173 | the loop computes the extraction |
| FindGoodRoi.Extracted | app/api/find-good-roi/route.ts:159-171 | the extraction yields at most one listing per link |
| FindGoodRoi.ExtractedSpec | app/api/find-good-roi/route.ts:159-171 | every URL is non-empty and appears once, in order of first appearance, with the text of that first link; every non-empty href is kept |
| FindGoodRoi.ExtractedTextsClean | app/api/find-good-roi/route.ts:167-168 | each card text is already clean |
| FindGoodRoi.Shorten | app/api/find-good-roi/route.ts:189 | a shortened listing keeps its URL and the first 500 characters of the cleaned text, or all of it when it is shorter |
| FindGoodRoi.ShortenedListings | app/api/find-good-roi/route.ts:189 | the response keeps each URL and cuts the cleaned text to its first 500 characters |

Some definitions carry no contract of their own. They are specified by the rows that name them:

- Invest.ComputeMetrics (lib/invest.ts:36-106): by NoPriceMetrics, NoRentMetrics, RentMetrics, CashOnCash, Dscr and DefaultLoan.
- MarketSummary.HardRules and MarketSummary.Passes (app/api/market-summary/route.ts:48-64): by FilterPasses, FilterCounts, FilterAppend and CountedPassHardRules.
- GreaterVancouverSearch.Matched (components/GreaterVancouverSearch.jsx:39-43): by MatchedMembers.
- GreaterVancouverSearch.ExpenseText and GreaterVancouverSearch.Amounts (components/GreaterVancouverSearch.jsx:14-18): by TextTaxValues, TextTaxNoi and TextTaxWithoutNumeralIsNaN.
- GreaterVancouverSearch.CapRateNotNaN (components/GreaterVancouverSearch.jsx:65): the condition FilteredRanked and FilteredBest require.
- CsvRoiUploader.FirstMoney (components/CsvRoiUploader.jsx:191-196): by FirstMoneyAllMissing, ForSaleHasNoFileRent and AnalyzeRow.
- FindGoodRoi.CleanText and FindGoodRoi.CardText (app/api/find-good-roi/route.ts:167-168): by CleanSpec, CleanTextIdempotent and ExtractedTextsClean.
- ListingsTs.Column (lib/loadListings.ts:103-117): by PickFirstSpec and Coerce.Num.
- Js.ToNumber and Js.ToStr (JavaScript's `Number()` and `String()`), and Numeral.StringToNumber and Numeral.NumberToString: by IntRoundTrip, IntegralRoundTrip, BlankIsZero, ParseNonNumeralStart and NumberNotBlank.

## Left out

- Numbers are exact reals. IEEE rounding, NaN and Infinity are not modelled; NaN is the absence of a value, as `Number.isFinite` makes it in `num`.
- `Number()` is modelled on plain decimal numerals only. Exponents, hexadecimal and `Infinity` read as not-a-number.
- `String(number)` is modelled exactly for whole numbers. Fractions are written with at most six truncated digits.
- `Math.round`, `toFixed` and `toLocaleString` formatting is not modelled beyond the rounding the estimates use.
- CsvRoiUploader.ParseMoney: its contract covers null and number cells only. Text cells are covered by the lemmas beside it, and boolean cells only through MoneyNeedsDigit ("true" and "false" hold no digit).
- CsvRoiUploader.ParseNumber: its contract covers null and number cells only. Text cells are covered by the lemmas beside it: NumberNeedsDigit (text without a digit, "true" and "false" among them, is null) and NumbersRunTogether (digit groups with letters between them run together). A unit such as "1,234 sqft" being dropped is not stated as a lemma of its own.
- Text.ToLower: lower-cases the ASCII letters A to Z only, while JavaScript's `toLowerCase` also folds other letters ("É" to "é"). This affects the query match of the Greater Vancouver search (components/GreaterVancouverSearch.jsx:36,42), the listing-type words (components/CsvRoiUploader.jsx:66) and the lower-casing in ParseMoney and ParseNumber (components/CsvRoiUploader.jsx:16,33): a query such as "québec" does not match "QUÉBEC" in the model.
- Text.ToUpper: upper-cases the ASCII letters a to z only. Its one use is on a matched province code, which is ASCII, so nothing the model states depends on this.
- FindGoodRoi.Shorten: a string is a sequence of Unicode code points, while `.slice(0, 500)` counts UTF-16 code units. Text with characters outside the Basic Multilingual Plane, such as emoji, is cut at a different place.
- Invest.MortgagePaymentMonthly: requires an annual rate above −1200%. A rate of −100% a month or less makes `Math.pow` divide by zero or flip sign; that is not modelled.
- Invest.MortgagePaymentMonthly: `amortYears` is an integer. A fractional term is not modelled.
- GreaterVancouverSearch.Enriched: `None` stands for both null and NaN. A text `Property_Tax` cell turns the expense sum into string concatenation (components/GreaterVancouverSearch.jsx:14-18), and the NOI and cap rate read back from it are usually NaN.
- GreaterVancouverSearch.FilteredRanked: requires that no matching row has a NaN cap rate (CapRateNotNaN). The sort comparator subtracts cap rates (components/GreaterVancouverSearch.jsx:65), and a NaN makes it inconsistent, so the order is left to the JavaScript engine. The model always sorts a missing cap rate last.
- GreaterVancouverSearch.FilteredBest: carries the same requirement, because which 500 rows survive the slice depends on that order. Filtered, FilteredRowsQualify and FilteredComplete do not need it: the sort keeps the same rows in any order.
- The page that feeds listings into the Greater Vancouver search is not part of this model.
- The React rendering, memo and effect scheduling, scrolling and the Plotly histogram drawing (components/OpeningScreen.jsx:76-94) are not modelled. The screen's handlers are methods on the state they set.
- OpeningScreen.Screen.ApplyResponse: page, total and totalPages are integers. A non-numeric response field (the source's `Number(...)` of it) is not modelled.
- The `fetch` calls themselves (OpeningScreen, RealEstateROIAnalyzer) are left out; their results are inputs. A non-array search response (the throw at components/RealEstateROIAnalyzer.tsx:113) surfaces as an error message and is not modelled.
- The order of keys in the merged objects is not modelled; rows are maps.
- The screen's current `items` and the option lists are not fields of the screen state. CapRates takes the items as input.
- The find-good-roi Playwright session (app/api/find-good-roi/route.ts:27-143, 176-211) is left out: the browser, typing, clicking, scrolling, the request capture and the `Output` record. The anchors and requests it yields are inputs.
- File, XLSX and CSV parsing, logging and `fs.existsSync` are left out. A missing file is `None`, and sheet rows are maps from column name to value.
- `Date.now()` is a parameter of the cache.
- HTTP request and response plumbing and the `try/catch` 500 responses are left out.
