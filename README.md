# hey, modelled in Dafny

A model of the sequential core of **hey**, the HTTP load generator, with
proofs about it. The transport layer (goroutines, channels, `http.Client`)
is not modelled. The logic around it is modelled in three groups:

- **Result aggregation and statistics.**
  - requester/report.go: the reporter folds the per-request results into counters, sums and eight parallel latency slices, which are capped at `maxRes`. Its snapshot then sorts the slices, takes the extremes, and builds the 11-bucket histogram and the percentile distribution.
  - requester/print.go: chooses the output template, normalises the histogram bars to 40 characters, and lays out the CSV output.
  - commands/print.go: the older summary printer. It covers the fastest/slowest tracking, the `(i+1)*100/len` percentile walk, the `#` histogram and the speed index.
- **Request templating and substitution.**
  - requester/generator.go: the `{i…}`/`{f…}`/`{s…}` placeholder scan, the registration of one replacer per name, range defaults, what each replacer yields, and the substitution closure.
  - tmpl/tmpl.go and tmpl/rand.go: the `{{.Item}}` template checks, how a template is filled, and the shapes of the random values.
  - requester/renderer.go: the `{{int}}`/`{{datetime}}` body renderer.
  - request/shuffler.go: the `{{…}}` path shuffler.
- **Command-line configuration and headers.**
  - flags.go: the checks after `flag.Parse`.
  - work.go (`newWork`) and internal/parser/work.go (`NewWork`, `validate`, `newHttpHeader`): header precedence, User-Agent composition, the Basic credentials (base 64 of `user:password`, section 2 of RFC 7617 with the encoding of section 4 of RFC 4648), body and proxy selection, and the fields of the resulting `requester.Work`.
  - cmd/root.go: the two input patterns `^([\w-]+):\s*(.+)` and `^(.+):([^\s].+)` as hand-written matchers proved against declarative descriptions of RE2's preferred match, `parseInputWithRegexp`, and `initRandBytes`.

How the model represents the source:
- Latencies are integer nanoseconds.
- A `string` is a sequence of Unicode code points. A Go string holds their UTF-8 bytes (`Base64.Utf8`), so every length Go takes with `len`, such as a ContentLength, is a UTF-8 byte length.
- Randomness, the clock, the file system, `url.Parse`, the `text/template` parser and executor, and the order in which Go ranges over a map are parameters of the members that use them.
- Where the source updates an object or a slice in place, the model does too: the reporter and the `Boom` printer are classes, and `initRandBytes` fills an `array`.
- Loops become methods with invariants, each proved equal to a specification function. Lemmas then state the source's promises about those functions.

Where the code and its own tests or comments disagree, the model follows the code:
- requester/report.go:222 tests `i*100/len`. For the latencies 1..100 it therefore reports p+1 as the p-th percentile, while requester/report_test.go:22-39 expects p.
- `Stats.HundredPercentiles` proves both outcomes: p+1 for report.go's walk and p for commands/print.go's.
- The comment at tmpl/tmpl.go:147-148 says Validate returns ErrNoTmpl when nothing is a template. The code never returns it: its only error is ErrUnknownsTmpl, as `TmplCheck.ValidatedMeaning` states.

Both work builders use the input patterns and error text of cmd/root.go:38-39 and 107-114. work.go and hey_test.go belong to `package main`, whose own definitions at boom.go:33-34 and 249-256 differ: there `authRegexp` is `^([\w-\.]+):(.+)` and the error reads "Could not parse provided input". The model follows cmd/root.go because hey_test.go:66-71 expects `plus+$*{:boom` to be accepted, and boom.go's `authRegexp` rejects it.

## Model

| member | source | states |
|---|---|---|
| ReportModel.FoldCountsAll | requester/report.go:84-87 | every consumed result, error or success, adds exactly one to numRes |
| ReportModel.FoldCountsErrors | requester/report.go:86-89 | the error distribution's counts grow by exactly the number of error results |
| ReportModel.ErrorOnlyCounts | requester/report.go:88-89 | an error result changes numRes and its error count only: sums, stored slices and sizeTotal stay |
| ReportModel.FoldSumsDurations | requester/report.go:90-96 | the total duration sum gains every successful duration, also after the storage cap is reached |
| ReportModel.FoldStoresCapped | requester/report.go:97-106 | the eight slices stay of equal length, and exactly min(maxRes, stored + successes) entries are stored |
| ReportModel.FoldStoresPrefix | requester/report.go:97-106 | index k of all eight stored slices holds the values of one and the same success, the k-th stored, in arrival order |
| ReportModel.FoldSizes | requester/report.go:107-109 | sizeTotal grows by exactly the positive content lengths of the successes, so it never decreases |
| ReportModel.SortAllParallel | requester/report.go:182-190 | sorting the six latency slices keeps all eight slices parallel and sorts lats |
| ReportModel.TakeSnapshot | requester/report.go:143-215 | for a non-empty reporter, builds the sorted slices, histogram, distribution, status-code counts and report record |
| ReportModel.EmptySnapshot | requester/report.go:143-169 | with no stored latency the report carries the counters and sums, SizeReq 0, no histogram and no distribution |
| ReportModel.SnapshotCopies | requester/report.go:144-180 | the report carries counters, sums and error distribution, SizeReq = sizeTotal / len(lats) truncated toward zero (ReportModel.Quo), and arrival-order copies of the slices |
| ReportModel.Quo | requester/report.go:171 | Go's int64 `/`: the quotient truncated toward zero, its product with the divisor between 0 and the dividend and less than one divisor away |
| ReportModel.SnapshotFastestSlowest | requester/report.go:182-196 | Fastest is the minimum and Slowest the maximum of the stored latencies |
| ReportModel.SnapshotStageExtremes | requester/report.go:197-206 | as written, each stage's "Max" field is the smallest value of its slice and its "Min" field the largest |
| ReportModel.SnapshotStatusCodes | requester/report.go:208-212 | StatusCodeDist tallies the stored codes per code, and its counts add up to len(lats) |
| ReportModel.SnapshotHistogram | requester/report.go:192 | the histogram has 11 buckets, the last mark is Slowest, and the counts add up to len(lats) |
| ReportModel.SnapshotDistribution | requester/report.go:193 | the distribution has one entry per percentile (7), each zero-valued or with a positive latency |
| RequesterReport.Reporter.constructor | requester/report.go:66-82 | newReport: all counters, sums and slices empty or zero |
| RequesterReport.Reporter.Consume | requester/report.go:86-110 | one loop iteration updates the state to Absorb(old state, result) |
| RequesterReport.Reporter.AddSuccess | requester/report.go:90-109 | the success branch: the six sums grow by the durations, the eight slices get one entry below the cap, sizeTotal grows by a positive length |
| RequesterReport.Reporter.RunReporter | requester/report.go:84-114 | after the loop the state is the fold of all results over the old state, and the slices stay parallel |
| RequesterReport.Reporter.Snapshot | requester/report.go:143-215 | with nothing stored the report is the counters and nothing changes; otherwise the slices are sorted in place, fastest/slowest are their ends, and the report is its value specification |
| ReportTables.Histogram | requester/report.go:237-268 | the bucket scan over sorted latencies returns the specified histogram: 11 marks, each counting the latencies of its range |
| ReportTables.Latencies | requester/report.go:217-235 | the percentile walk returns the specified distribution: 7 entries, zero-valued where no positive latency was picked |
| Stats.SortedCovered | requester/report.go:241-245 | sorted latencies all lie at or below the last mark, which is the slowest; commands/print.go:89-96 relies on the same fact |
| ReportTables.HistogramAddsUp | requester/report.go:237-258 | the histogram of sorted latencies has 11 buckets, the last mark is the maximum, and the counts sum to len(lats) |
| Stats.FirstReaching | requester/report.go:221-226 | the index serving a percentile is the first one at or after the start whose percentage reaches it |
| Stats.PicksShape | requester/report.go:219-227 | one pick per percentile; the indices used strictly increase, so each index serves at most one percentile; once one percentile is unreached, so are all later ones |
| Stats.PicksFirst | requester/report.go:221-226 | a reached percentile takes the first index after the previous pick whose percentage reaches it |
| Stats.Percentiles | requester/report.go:217-227 | the i/j walk stores exactly the specified percentile values |
| Stats.PercentilesMonotone | commands/print.go:70-76 | on sorted latencies, the values of reached percentiles never decrease |
| Stats.HundredPercentiles | requester/report.go:217-227 | for latencies 1..100, the `i*100/len` walk of report.go reports p+1 as percentile p (requester/report_test.go:22-39 expects p), while the `(i+1)*100/len` walk of commands/print.go:69-76 reports p |
| Stats.Marks | requester/report.go:238-245 | 11 sorted marks between fastest and slowest, the last equal to slowest |
| Stats.CountBuckets | requester/report.go:246-258 | the scan ends, counts each sorted latency in the first bucket whose mark reaches it, and max is the largest count |
| Stats.HistogramTotal | requester/report.go:248-258 | over covered latencies, the bucket counts add up to the number of latencies |
| Tally.Bump | requester/report.go:89 | `m[k]++`: k gets its old count (0 if absent) plus 1, and no other key changes |
| Tally.TallyCounts | requester/report.go:208-211 | the tally's keys are the elements, each counting its occurrences, and the total is the length |
| Tally.CountAll | requester/report.go:208-212 | the counting loop builds the tally: one key per element, valued at its number of occurrences |
| Tally.BumpAllCounts | commands/print.go:37 | bumping a sequence onto a map adds its occurrences to each counter and its length to the total |
| Sorting.Sort | requester/report.go:182 | the result is sorted and a permutation of the input |
| Sorting.SortedEnds | requester/report.go:182-184 | the first element of the sorted copy is the minimum and the last the maximum |
| Commands.FastestIsMin | commands/print.go:40-42 | over positive durations, fastest ends as the minimum |
| Commands.FastestAfterZero | commands/print.go:40-42 | as written, a zero duration resets fastest, so the next duration is taken whatever it is |
| Commands.SlowestIsMax | commands/print.go:43-45 | slowest ends as the maximum of the durations and 0, and is either 0 or one of them |
| Commands.Divide | commands/print.go:47-52 | IEEE division: a zero divisor gives NaN for 0/0 and an infinity otherwise; a non-zero divisor gives the exact quotient |
| Commands.AverageIsMean | commands/print.go:52 | the printed average times b.N is the sum of the drained durations: the mean only when b.N results were drained |
| Commands.SpeedIndexBands | commands/print.go:134-144 | above 500, above 100, above 50 and the rest map to the four texts, and a faster rate never gets a lower band |
| Commands.Rps | commands/print.go:47 | requests per second: the rate times the elapsed time in seconds is b.N; with no elapsed time, +Inf for b.N > 0 and NaN for 0 |
| Commands.RpsBands | commands/print.go:134-144 | the speed index of b.N requests in `total` nanoseconds: "Whoa, pretty neat" iff b.N·10⁹ > 500·total, "Pretty good" iff 100·total < b.N·10⁹ <= 500·total, "Meh" iff 50·total < b.N·10⁹ <= 100·total, else "Hahahaha" |
| Commands.RpsSample | commands/print.go:47-53 | 1000 requests in one second give rps 1000 and "Whoa, pretty neat"; in 100 seconds, "Hahahaha" |
| Commands.PositiveExactly | commands/print.go:78-82 | a percentile line is printed exactly for each percentile whose value is positive |
| Commands.PrintLatencies | commands/print.go:65-83 | the `(i+1)*100/len` walk followed by the lines of the positive values |
| Commands.Bar | commands/print.go:117-120 | the bar is barLen copies of `#`, empty for length 0 |
| Commands.BarLenBounds | commands/print.go:113-120 | barLen = count*40/max truncated: at most 40, exactly 40 for the largest count, 0 for a zero count |
| Commands.HistCounts | commands/print.go:86-109 | 11 non-negative bucket counts of the sorted latencies |
| Commands.MaxOf | commands/print.go:98-105 | the largest count: it bounds every count and is one of them unless it is 0 |
| Commands.PrintHistogram | commands/print.go:85-124 | marks, the bucket scan with max tracking, then one line per bucket, equal to the specified text |
| Commands.HistogramAddsUp | commands/print.go:89-109 | the counts add up to the number of latencies, and the last mark is the slowest |
| Commands.HistogramBars | commands/print.go:111-122 | every bar is at most 40 long, and the largest bucket's bar is exactly 40 |
| CommandsBoom.Boom.constructor | commands/print.go:24-26 | the package-level latencies and status counts start empty |
| CommandsBoom.Boom.Drain | commands/print.go:33-45 | draining appends every duration, bumps every status code, sums the durations and tracks fastest and slowest |
| CommandsBoom.Boom.Print | commands/print.go:28-62 | after Print the latencies are the sorted old-plus-drained durations, and the status counts are bumped |
| ReportPrint.NewTemplate | requester/print.go:45-54 | "" selects the summary, "csv" the CSV template, and any other text is itself the template |
| ReportPrint.MaxCountIsMax | requester/print.go:77-82 | the largest count bounds every count and is one of them unless it is 0 |
| ReportPrint.LargestCount | requester/print.go:77-82 | the first loop finds the largest count |
| ReportPrint.BarLenAtMost40 | requester/print.go:86-89 | a bar is never longer than 40 |
| ReportPrint.BarLenFull | requester/print.go:88 | the bar of the largest count is exactly 40 |
| ReportPrint.BarLenRounds | requester/print.go:88 | `(count*40 + max/2) / max` is count*40/max rounded to within one half |
| ReportPrint.BarLenBounds | requester/print.go:85-89 | bars are in [0, 40], exactly 40 for the largest count, 0 when max is 0, and rounded |
| ReportPrint.HistogramBars | requester/print.go:76-93 | over all buckets: bars at most 40, a largest bucket at 40, and all bars empty when every count is 0 |
| ReportPrint.HistogramText | requester/print.go:76-93 | one pass for the largest count, then the specified lines, one per bucket in order |
| ReportPrint.LineNewlines | requester/print.go:90 | each histogram line holds exactly one newline, at its end |
| ReportPrint.LinesPerBucket | requester/print.go:84-92 | the histogram text has exactly one line per bucket |
| ReportCsv.CsvFields | requester/print.go:127 | a row has eight fields, in the column order of the header |
| ReportCsv.RowTexts | requester/print.go:126-127 | one row per stored latency, the i-th built from index i of every slice |
| ReportCsv.RowOcc | requester/print.go:127 | a row holds seven commas and no newline |
| ReportCsv.HeaderPlain | requester/print.go:126 | no column name holds a comma or a newline |
| ReportCsv.CsvShape | requester/print.go:126-127 | the CSV text holds exactly one newline per stored latency (each row starts on its own line after the header) and seven commas per line, the header included |
| GeneratorScan.DecodeBraces | requester/generator.go:17 | pathEnc decoding never lengthens the text |
| GeneratorScan.DecodeEncode | requester/generator.go:17-24 | decoding `%7B`/`%7D` undoes the URL escaping of braces in a text without `%` of its own |
| GeneratorScan.DecodeNoPercent | requester/generator.go:24 | a text without `%` passes the decoding unchanged |
| GeneratorScan.MatchAtSound | requester/generator.go:15 | everything the matcher reports at an index is a grammatical placeholder occurring there |
| GeneratorScan.MatchAtFinds | requester/generator.go:15 | every grammatical placeholder occurring at an index is what the matcher reports there |
| GeneratorScan.TokenDetermines | requester/generator.go:15 | a placeholder's text determines its name and its range groups |
| GeneratorScan.FindAllEmpty | requester/generator.go:25-29 | the search from i finds nothing iff no placeholder starts at or after i |
| GeneratorScan.FindAllNone | requester/generator.go:25-29 | a text gives no matches iff it holds no placeholder |
| GeneratorScan.FindAllSound | requester/generator.go:25-28 | every match found is a placeholder that occurs in the text at or after the start |
| GeneratorScan.FindAllWellFormed | requester/generator.go:25-28 | every match found is a grammatical placeholder |
| GeneratorRegistry.ToInt | requester/generator.go:35-38 | within the 64-bit range the digits' value; beyond it, the largest value |
| GeneratorRegistry.ToIntRoundTrip | requester/generator.go:35-38 | the decimal text of a number in range converts back to it |
| GeneratorRegistry.GenOf | requester/generator.go:61-70 | without a range, min 1 and max 10; with one, the parsed bounds, with max raised to min when below it |
| GeneratorRegistry.Prepare | requester/generator.go:40-107 | the registration loop over the three maps gives the specified registry |
| GeneratorRegistry.WellFormedParsed | requester/generator.go:45-46 | every found placeholder's name is read back from its text |
| GeneratorRegistry.StepGood | requester/generator.go:45-60 | one registration step keeps the registry invariant (token, name and holder maps agree) |
| GeneratorRegistry.RegisterAllGood | requester/generator.go:40-60 | after the loop the invariant holds and the names registered are exactly those of the matches |
| GeneratorRegistry.RegisterAllCovers | requester/generator.go:50-59 | every match is a holder of the token registered for its name |
| GeneratorRegistry.RegisterAllFirstWins | requester/generator.go:51-70 | the first match of a name sets that name's token and range, and later matches never change them |
| GeneratorRegistry.RepeatNotRegistered | requester/generator.go:47-49 | a repeated identical token is not registered again: it is the first and only copy among its holders |
| GeneratorRegistry.SameNameSameToken | requester/generator.go:51-53 | two matches with the same name are held by the same registered token |
| GeneratorRequest.Found | requester/generator.go:28-44 | the placeholders of a request, the body's then the URL's, all registrable |
| GeneratorRequest.Prepared | requester/generator.go:22-33 | a prepared generator keeps the registry invariant |
| GeneratorRequest.RequestGenerator | requester/generator.go:22-107 | decoding, both scans and the registration loop give the specified preparation |
| GeneratorRequest.PreparedWhenDynamic | requester/generator.go:22-33 | there is no generator iff neither the body nor the decoded URL holds a placeholder; the dynamic flags say which holds one |
| GeneratorRequest.PreparedRegistry | requester/generator.go:40-107 | a prepared registry keeps its invariant, holds every placeholder, and the first of each name owns it |
| GeneratorRequest.Values | requester/generator.go:113-114 | one drawn value per registered token |
| GeneratorRequest.NewRequest | requester/generator.go:111-132 | the closure's loops build the specified request from the drawn values |
| GeneratorRequest.ReplaceHolders | requester/generator.go:115-122 | every holder of a token is replaced in the body only if it is dynamic, and in the URL only if it is dynamic |
| GeneratorRequest.PlanHas | requester/generator.go:115-121 | every holder of every token is replaced with that token's value |
| GeneratorRequest.PlaceholderValue | requester/generator.go:111-122 | every placeholder is replaced with the value of its name's token, and with no other value |
| GeneratorRequest.SameNameSameValue | requester/generator.go:111-122 | two placeholders with the same name get one and the same value in a generated request |
| GeneratorRequest.GeneratedShape | requester/generator.go:124-131 | only dynamic parts change, and ContentLength is set, to the new body's UTF-8 byte length, exactly when the body is dynamic |
| GeneratorValues.Intn | requester/generator.go:80 | rand.Intn(n) is below n |
| GeneratorValues.Pick | requester/generator.go:74-82 | min when max == min, else a value in [min, max) |
| GeneratorValues.StringLength | requester/generator.go:96-99 | the string length is min when max == min, else in [min, max) |
| GeneratorValues.StringReplacer | requester/generator.go:94-105 | the buffer loop fills the specified string value |
| GeneratorValues.Replacer | requester/generator.go:72-106 | one replacer call yields the specified value for its kind |
| GeneratorValues.IntValueInRange | requester/generator.go:73-82 | an `i` value is the decimal text of a number in [min, max], below max unless the range is a single value |
| GeneratorValues.FloatValueInRange | requester/generator.go:83-92 | an `f` value is `<whole>.<frac>`, with the whole part following the int rule and frac in [0, 98] |
| GeneratorValues.StringValueInRange | requester/generator.go:93-105 | an `s` value's length follows the length rule, and its characters come from the pool minus its last byte |
| GeneratorValues.DrawnPool | requester/generator.go:16-18 | the drawable characters are charPool without its final '9' |
| TmplItems.TableInverse | tmpl/tmpl.go:32-41 | every item but Unknown has exactly one key in the table |
| TmplItems.ItemString | tmpl/tmpl.go:43-51 | ranging over the table in any order gives the item's key, and "" for Unknown |
| TmplItems.FirstItemSpec | tmpl/tmpl.go:78-99 | the first item whose key occurs in the node, or Unknown iff none occurs |
| TmplItems.NodeItemSpec | tmpl/tmpl.go:78-99 | nodeToTemplateItem is Unknown iff no key occurs, otherwise the first match in the order RequestID, Email, Integer, Date, Time, DtTm, Float, String |
| TmplItems.ListNodeFieldsActions | tmpl/tmpl.go:105-116 | listNodeFields appends exactly the pre-order action texts, descending only into list nodes |
| TmplItems.TemplateFields | tmpl/tmpl.go:101-103 | the fields of a template are the actions of its root |
| TmplCheck.TemplateString | tmpl/tmpl.go:119-140 | the mark test, parse and unknown-count loop give the specified check result |
| TmplCheck.UnknownCountPositive | tmpl/tmpl.go:128-137 | the unknown count is positive iff some field names no item |
| TmplCheck.CheckNoTmpl | tmpl/tmpl.go:119-126 | ErrNoTmpl iff the value lacks `{{.` or `}}`, or does not parse |
| TmplCheck.CheckUnknowns | tmpl/tmpl.go:128-137 | ErrUnknownsTmpl iff the value parses and some action names no item |
| TmplCheck.CheckParsed | tmpl/tmpl.go:123-139 | an accepted template is the parsed tree, and each of its actions names an item |
| TmplCheck.Validate | tmpl/tmpl.go:149-171 | the counting loop over body and headers gives the specified verdict |
| TmplCheck.CountOverKeys | tmpl/tmpl.go:157-164 | counting along any order of the header keys gives the number of counted keys |
| TmplCheck.ValidatedMeaning | tmpl/tmpl.go:149-171 | Validate fails iff the number of counted headers plus the body's mark equals the number of headers, and its only error is ErrUnknownsTmpl |
| TmplCheck.ValidatedNoHeaders | tmpl/tmpl.go:166-168 | with no headers, Validate fails iff the body is an unknown template |
| TmplFill.FieldKeyCutset | tmpl/tmpl.go:181-182 | the key trims any run of `{` and `.` in front and any run of `}` behind: cutsets, not prefixes |
| TmplFill.FieldKeyAction | tmpl/tmpl.go:181-183 | `{{.Email}}` fills the key `Email` |
| TmplFill.FieldKeyShape | tmpl/tmpl.go:181-182 | a key never starts with `{` or `.` and never ends with `}` |
| TmplFill.Entries | tmpl/tmpl.go:175-184 | one (possibly absent) entry per field |
| TmplFill.ItemsOfSpec | tmpl/tmpl.go:174-184 | the map holds a key iff some known field fills it, valued at the last such field's generated value |
| TmplFill.FillTemplate | tmpl/tmpl.go:173-193 | the key loop then execution gives exec of the root against the specified item map |
| TmplFill.FillBody | tmpl/tmpl.go:200-209 | the body half of FillOut gives the specified body and length |
| TmplFill.FillHeader | tmpl/tmpl.go:213-225 | one header turn gives the specified new values |
| TmplFill.FillHeaders | tmpl/tmpl.go:211-226 | the header loop, in the order Go ranges the map, gives the specified header map |
| TmplFill.FillOut | tmpl/tmpl.go:196-229 | the copy, body step and header loop give the specified filled request |
| TmplFill.HeadersOutSpec | tmpl/tmpl.go:211-226 | the new header map holds exactly the keys whose new value exists, with that value |
| TmplFill.FillOutHeaders | tmpl/tmpl.go:211-226 | a non-template value is copied as is, a filled template is the header's only value, a failed fill drops the header, and no header is added |
| TmplFill.HeadersOrderFree | tmpl/tmpl.go:213 | the header map does not depend on the key order Go ranges in |
| TmplFill.FillOutBody | tmpl/tmpl.go:200-209 | a non-template body is set as is; a filled one replaces the body and sets ContentLength to its UTF-8 byte length; a failed fill leaves the request's own body and length |
| TmplRand.RandStringBytes | tmpl/rand.go:21-28 | the fill loop yields the specified letters |
| TmplRand.LettersShape | tmpl/rand.go:18-28 | randStringBytes(n) has length n and every byte in letterBytes |
| TmplRand.RandomEmailShape | tmpl/rand.go:30-32 | 20 characters: 10 letters, the only `@` at index 10, 5 letters, `.com` |
| TmplRand.RandomStringShape | tmpl/rand.go:34-36 | ten letters of letterBytes |
| TmplRand.RandomInteger | tmpl/rand.go:54-56 | the decimal text of the non-negative 63-bit draw, and nothing else |
| TmplRand.RemoveDashes | tmpl/rand.go:67 | ReplaceAll with "" keeps exactly the characters other than `-`, in order |
| TmplRand.RandomRequestShape | tmpl/rand.go:62-68 | the UUID text without dashes, or "" when generation fails; never a `-` |
| Renderer.Handlers | requester/renderer.go:14-26 | exactly the two handlers `int` and `datetime` |
| Renderer.Render | requester/renderer.go:34-40 | the handler loop yields the specified rendering for the given handler order |
| Renderer.RunRenderer | requester/renderer.go:28-32 | exactly n bodies, the k-th rendered with index k, in order |
| Renderer.RenderedIsFill | requester/renderer.go:34-40 | in either handler order, every `{{int}}` becomes the index's decimal text and every `{{datetime}}` the time, left to right |
| Renderer.RenderedPlain | requester/renderer.go:34-40 | a template holding neither placeholder is returned unchanged |
| Renderer.RenderedSample | requester/renderer.go:36-38 | both `{{int}}`s of `{{int}} foo {{datetime}} bar {{int}}` get the same index, and the text between stays |
| Shuffler.Submatches | request/shuffler.go:34 | FindStringSubmatch of `{{.*}}` gives at most one string |
| Shuffler.SpansLine | request/shuffler.go:11 | a `{{` at i and a `}}` at j form a match iff the `}}` ends on the line of the `{{` |
| Shuffler.FirstSpanSound | request/shuffler.go:11 | the match found is the leftmost `{{` with a close on its line, closed by the last `}}` on that line |
| Shuffler.InnerLength | request/shuffler.go:35-36 | removing the first `{{` and the first `}}` from `{{x}}` leaves x's length |
| Shuffler.SubmatchShape | request/shuffler.go:34 | the match is `{{`, some text, and `}}` |
| Shuffler.GeneratorMapShape | request/shuffler.go:34-40 | at most one generator, built from the whole match, registered iff the match holds something between its braces |
| Shuffler.NoSpanNoGenerator | request/shuffler.go:31-43 | a path without any `{{…}}` on one line gets an empty generator map |
| Shuffler.MatchToEnd | request/shuffler.go:11 | a one-line path whose first `{{` opens a match that runs to its end matches from that `{{` |
| Shuffler.PathShuffler.constructor | request/shuffler.go:31-43 | newShuffler's generator map is the specified one |
| Shuffler.PathShuffler.Shuffle | request/shuffler.go:45-49 | the request's URL becomes the specified shuffled URL |
| Shuffler.ShuffledShape | request/shuffler.go:45-49 | with no generator the URL is left alone; otherwise scheme and host stay and every occurrence of the match is replaced |
| Shuffler.ShuffleOne | request/shuffler.go:31-49 | a path `pre{{x}}` gets one generator built from `{{x}}`, and shuffling replaces that span with the output |
| Shuffler.ShuffleSample | request/shuffler_test.go:14-26 | `https://test.com/{{some_regex_pattern_here}}` with output `1234` becomes `https://test.com/1234` |
| Text.ReplaceFirst | request/shuffler.go:35-36 | replacing the first occurrence leaves a text without the pattern unchanged |
| Text.ReplaceFirstAt | request/shuffler.go:35-36 | `strings.Replace(s, old, new, 1)` replaces exactly the first occurrence: the text before it, the replacement, then the text after it |
| Text.ReplaceAbsent | requester/renderer.go:37 | replace-all leaves a text without the pattern unchanged |
| Text.ReplaceRemovesAll | requester/renderer.go:37 | replacing with a text that shares no character with the pattern leaves no occurrence |
| Text.Itoa | requester/renderer.go:19 | the decimal text of i, with a leading `-` for a negative i |
| Text.Repeat | commands/print.go:119 | n copies of the character |
| Text.ToUpper | work.go:30 | the same length, each ASCII letter upper-cased and every other character unchanged |
| Text.TrimLeft | tmpl/tmpl.go:181 | drops exactly the leading characters in the cutset |
| Text.TrimRight | tmpl/tmpl.go:182 | drops exactly the trailing characters in the cutset |
| Base64.DecodeEncode | internal/parser/work.go:143 | StdEncoding is decodable: decoding the encoding gives the bytes back |
| Base64.EncodeLength | internal/parser/work.go:143 | the encoding has 4 characters per 3 bytes, rounded up (padding) |
| Base64.Utf8Append | internal/parser/work.go:142-143 | the bytes of a joined string are the joined bytes |
| Credentials.BasicAuth | internal/parser/work.go:141-144 | the padded length of the base 64 encoding of `user:password` |
| Credentials.BasicAuthDecodes | internal/parser/work.go:141-144 | the credentials decode to user, a colon and the password; with no colon in the user-id, the first colon decoded is the separator |
| Credentials.BasicAuthSample | internal/parser/work.go:141-144 | `username`/`password` gives `dXNlcm5hbWU6cGFzc3dvcmQ=` |
| HttpHeader.SetGet | internal/parser/work.go:148 | after Set, Get gives the value, and every other name keeps its values |
| HttpHeader.SetSet | work.go:100-105 | a second Set under the same name replaces the first |
| HttpHeader.NewRequest | work.go:80-83 | the request fails iff the URL does not parse; otherwise it has the method, the URL, no headers and length 0 |
| HttpHeader.SetBasicAuth | work.go:85-87 | Authorization becomes `Basic ` plus the credentials, and nothing else of the request changes |
| HeaderSlices.HeaderSlice.constructor | flags.go:160 | a headerSlice starts empty |
| HeaderSlices.HeaderSlice.Set | flags.go:166-169 | Set appends the value in order and returns no error, as the identical type of cmd/root.go:122-125 does |
| HeaderLines.SetHeaderLines | work.go:37-43 | the `-H` loop gives the specified headers, or the first error |
| HeaderLines.ApplyHeadersOk | work.go:37-43 | the loop succeeds iff every line matches headerRegexp |
| HeaderLines.ApplyHeadersError | work.go:38-41 | a failing loop's error names the first line that does not match |
| HeaderLines.ApplyHeadersLast | work.go:37-43 | a name set by some line holds the value of the last such line, alone; every other name keeps what it had |
| HeaderLines.LastValueNonEmpty | cmd/root.go:38 | a value a header line sets is never empty |
| Matchers.HeaderMatchSpec | cmd/root.go:38 | headerRegexp matches iff some match exists, and then yields RE2's preferred one: the whole leading name run, the longest space run that leaves a value, and the value to the end of the line |
| Matchers.HeaderMatchOf | cmd/root.go:38 | `name:` plus spaces plus a value that starts with a non-space and holds no newline splits into name and value |
| Matchers.HeaderNoMatchOf | cmd/root.go:38 | a name run followed by a character that is neither a name character nor `:` is rejected |
| Matchers.AuthMatchSpec | cmd/root.go:39 | authRegexp matches iff some colon can split, and then splits at the last such colon |
| Matchers.AuthMatchJoin | cmd/root.go:39 | the user, `:` and the password give back the whole match, and the password has at least 2 characters |
| Matchers.AuthMatchOf | cmd/root.go:39 | a user, a colon and a password of 2+ characters without a colon, starting with a non-space, split there |
| Matchers.AuthNoMatchOf | cmd/root.go:39 | an only colon followed by a space does not match |
| Matchers.ParseInputWithRegexp | cmd/root.go:107-114 | the three submatches when the pattern matches, else the error naming the input |
| Matchers.HeaderSample | hey_test.go:26-37 | `X-Something: !Y10K:;(He@poverflow?)` gives `X-Something` and `!Y10K:;(He@poverflow?)` |
| Matchers.BadInputSample | hey_test.go:39-44 | `X|oh|bad-input: badbadbad` is rejected by both patterns |
| Matchers.AuthSample | hey_test.go:46-57 | `_coo-kie_:!!bigmonster@1969sid` splits at its colon |
| Matchers.AuthMetaSample | hey_test.go:66-71 | `plus+$*{:boom` is accepted |
| RandBytes.LittleEndian | cmd/root.go:135 | w bytes, least significant first |
| RandBytes.LittleEndianRoundTrip | cmd/root.go:135 | reading back the written bytes gives the value when it fits the width |
| RandBytes.PutUint64 | cmd/root.go:135 | the eight bytes at i become x's, and the rest of the array stays |
| RandBytes.InitRandBytes | cmd/root.go:127-138 | n bytes, one little-endian chunk per eight bytes |
| RandBytes.ChunkAt | cmd/root.go:129-136 | chunk m of the bytes is the little-endian form of its value |
| RandBytes.ChunksDecode | cmd/root.go:127-138 | every 8-byte chunk reads back as v when v != 0, and as the m-th draw when v == 0 |
| ParserConfig.Config.constructor | internal/parser/config.go:19-49 | a Config holds the given N, C, Dur and settings |
| ParserWork.Validate | internal/parser/work.go:129-139 | C becomes N when N < C, nothing else changes, and the error is the specified one |
| ParserWork.ValidatedMeaning | internal/parser/work.go:129-139 | fails iff N <= 0 or C <= 0 after clamping; when it passes, 1 <= C <= N, and C is unchanged unless it was above N |
| ParserWork.ValidateSamples | cmd/root_test.go:55-69 | `-n 5` with the default 50 workers runs 5 workers, `-n 1 -c 100` runs 1, and both pass |
| ParserWork.SetHeader | internal/parser/work.go:146-150 | an empty value leaves the map alone; otherwise the name holds just the value and other names keep theirs |
| ParserWork.FlagHeadersAt | internal/parser/work.go:100-104 | each of the four flag headers is present iff its flag is non-empty, with its value |
| ParserWork.WithAuthAt | internal/parser/work.go:106-112 | before the `-H` lines, Authorization holds `Basic` credentials when `-a` is given, else each name holds its flag's value |
| ParserWork.NewHttpHeader | internal/parser/work.go:99-127 | the four setHeaders, the auth step, the `-H` loop and the User-Agent default give the specified headers |
| ParserWork.HttpHeaderErrors | internal/parser/work.go:106-121 | newHttpHeader fails iff `-a` is given and does not split, or some `-H` line does not match; a bad `-a` gives its error |
| ParserWork.HttpHeaderLineError | internal/parser/work.go:114-121 | with a good `-a`, a failure names the first bad `-H` line |
| ParserWork.HttpHeaderValues | internal/parser/work.go:99-127 | each name holds one value: the last `-H` line's, else `-a`'s credentials for Authorization, else its flag's, else `hey/0.0.1` for User-Agent; no other name is set |
| ParserWork.NewWork | internal/parser/work.go:36-97 | the work is the specified one; C is clamped; N becomes MaxInt32 for a valid timed run |
| ParserWork.WorkErrors | internal/parser/work.go:38-78 | the steps fail in order (validate, proxy, body file, headers, URL), with the first failing step's error |
| ParserWork.WorkFields | internal/parser/work.go:43-96 | N is MaxInt32 for a timed run, 1 <= C <= N, the body is `-D`'s over `-d`'s with ContentLength its length, the headers are attached, and DisableKeepAlives is DisableCompression as written |
| MainWork.BuildHeader | work.go:33-47 | Content-Type, the `-H` loop, then Accept, equal to the specified headers |
| MainWork.BuiltHeaderAt | work.go:33-47 | by name: the last `-H` line wins, except that a given `-A` overrides Accept, and Content-Type falls back to `-T` |
| MainWork.BuiltHeaderAgent | work.go:94 | without `-U`, the User-Agent read is the last `-H` line's, or none |
| MainWork.Gather | work.go:27-84 | the steps up to the request and its ContentLength give the specified parts |
| MainWork.PartsErrors | work.go:37-83 | the steps fail in order (`-H`, `-a`, body file, proxy, URL), with the first failing step's error |
| MainWork.CredentialsGiven | work.go:50-57 | a split `-a` always has a non-empty user and password, so SetBasicAuth always runs |
| MainWork.SetBasicAuthKeeps | work.go:85-87 | SetBasicAuth changes only the request's headers |
| MainWork.NewWork | work.go:27-122 | newWork, with the header map attached, is the corrected work |
| MainWork.WorkErrors | work.go:27-122 | both versions succeed iff the parts do, failing with the parts' error |
| MainWork.WorkFields | work.go:108-121 | the upper-cased method, the URL, the `-D`-over-`-d` body and its length, the Host of `-host`, and the settings copied one to one, except DisableKeepAlives, which is disableCompression |
| MainWork.HeaderValues | work.go:33-106 | the sent headers: User-Agent is `hey/0.0.1`, `<given> hey/0.0.1` or `<U> hey/0.0.1`; Authorization holds `-a`'s credentials; Accept is `-A`'s; otherwise the last `-H` line's, with Content-Type falling back to `-T` |
| MainWork.SentHeaderAt | work.go:85-106 | the corrected request's headers, name by name, from the gathered parts |
| MainWork.HeaderDropped | work.go:80-106 | as written, the request carries no header but Authorization (only with `-a`); the corrected one carries Content-Type and User-Agent |
| MainWork.AgentSamples | work.go:94-106 | no agent gives `hey/0.0.1`; a given one `curl/8 hey/0.0.1`; `-U bench` gives `bench hey/0.0.1` |
| Flags.ParseFlags | flags.go:104-128 | Ok iff there is a URL argument, the counts pass and `-h` is empty; the URL is the first argument and N is MaxInt32 for a timed run; each error arises under its condition, with `-h` checked last |
| Flags.DefaultsAccepted | flags.go:76-100 | the defaults (GET, text/html, c 50, n 200, q 0, t 20, z 0) with a URL pass unchanged |
| Flags.TimedRunSample | flags.go:109-121 | `-z` turns N into MaxInt32 even below a large C, while without it `-c 500` fails with "-n cannot be less than -c" |

## Left out

- Concurrency and transport: the worker goroutines, channels, `http.Client`, timeouts, rate limiting and signals. The result stream is a sequence, and the `select` drain of `Boom.Print` consumes what is buffered.
- Floating point:
  - averages and rps (`report.finalize`), `Bucket.Frequency`, and float bucket-mark arithmetic. Marks are integer tenths of the spread;
  - `formatNumber`'s `%4.4f`, `jsonify` and `RandomFloat`;
  - time formatting in `RandomTime`, `RandomDate`, `RandomDateTime` and the `datetime` handler. Formatted numbers and time texts are parameters.
- `report.print` and `printf`, `printStatusCodes`, `errAndExit`, `usageAndExit` and `mustRandBytes`: output, `os.Exit` and an OS random source, with nothing to prove beyond the texts already modelled.
- `text/template` parsing and execution, `regexp` outside the two hand-matched patterns, `url.Parse`, `ioutil.ReadFile`, `uuid.NewRandom`, `reggen` and the `rand` package are parameters, not models.
- `TemplateItem.Generate` for the time, date and float items yields an oracle value. Only the shapes tmpl/rand.go fixes are proved.
- `http.Header` key canonicalisation is not modelled: names are kept as given.
- `http.NewRequest`'s check of the method name is not modelled; only its URL parse can fail here.
- `runtime.GOMAXPROCS(conf.cpus)` is a process setting and is left out.
- Flag binding by the `flag` package: `Flags.ParseFlags` starts from the bound values and the positional arguments.
- `headerSlice.String`: formatting only.
- The `package main` files boom.go and main.go, and the cobra commands of cmd/get.go and cmd/put.go, which each duplicate the count checks of flags.go, are not part of this model.
- ParserConfig: ContentType, Accept and HostHeader are read by internal/parser/work.go:101-103, but internal/parser/config.go does not declare them. The model keeps them in the settings value.
- ParserWork.NewWork, ParserWork.NewHttpHeader, MainWork.NewWork and TmplFill.FillOut call the helper methods HeaderLines.SetHeaderLines, MainWork.BuildHeader, MainWork.Gather, TmplFill.FillBody and TmplFill.FillHeaders for their loops and early steps, instead of one long body each.
- RequesterReport.Reporter.Snapshot: does not restate the parallel-slices invariant in its own ensures. ReportModel.SortAllParallel gives it for the sorted slices.
- CommandsBoom.Boom.Print: requires at least one latency, old or drained. With none, Go panics at commands/print.go:89 (`latencies[0]`), and the panic is not modelled.
- Text.ToUpper: upper-cases ASCII letters only. `strings.ToUpper` at work.go:30 and internal/parser/work.go:56 also maps other letters through Unicode's case tables ("é" to "É"), which the model does not include; HTTP method names are ASCII.
- RandBytes.InitRandBytes: requires n to be a multiple of 8. Go panics on `k[i:i+8]` otherwise, and the panic is not modelled.
- ReportTables.Histogram: requires the sorted, non-empty latencies with their ends as fastest and slowest, as `snapshot` provides them; the float marks are integers here.
- Shuffler.PathShuffler.Shuffle: the URL is its scheme and host plus its path, and `url.Parse` of the rewritten path is taken to succeed; its error is discarded in the source. Go's `r.URL.Parse(ref)` resolves the rewritten path as a reference: it drops the original query and fragment, removes dot segments, and splits off a generated `?` or `#`. The model takes the result to be the base plus the rewritten path, verbatim.

## Findings

| source | as written | input that shows it | evidently intended | confidence | as-written member | corrected member |
|---|---|---|---|---|---|---|
| work.go:80-106 | `header` is built with Content-Type, the `-H` lines, Accept and User-Agent, but never assigned to `req.Header`. The request sends only what `SetBasicAuth` wrote. | `hey -T application/json http://x` sends no Content-Type and no User-Agent | `req.Header = header` right after `http.NewRequest`, as internal/parser/work.go:81 does | not executed | MainWork.WorkOfAsWritten (shown by MainWork.HeaderDropped) | MainWork.WorkOf (built by MainWork.NewWork; headers stated by MainWork.HeaderValues) |
