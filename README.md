# S3 SmartQuery: the query engine and the bucket tallies

This project models the analytics core of the S3 SmartQuery Flask service in Dafny and
proves properties of it. The model has two parts.

- **`/query` (query_box).**
  - The question is trimmed and lower-cased.
  - A snapshot of the bucket is taken: one record per object, with key, size, last-modified
    date and the lower-cased `uploader` metadata.
  - The first of ten regular-expression rules that matches picks an intent.
  - The intent's aggregation runs over the snapshot: a count, or a stable top-N by size.
  - The result is worded as a sentence. A question no rule matches gets the fixed fallback
    sentence. An exception is reported as `"Error: …"` with status 500.
- **The tally endpoints.**
  - count_by_type counts the objects per extension bucket.
  - uploads_by_user counts the objects per uploader metadata value.
  - storage_by_date and total_storage sum the bytes.
  - dashboard does all three in one pass.

`parse_size` turns the captured size literal ("5 mb", "1.5kb", "2 gb") into bytes. The
captured literal is already lower-case and always ends in "b".

Modules, one per file:

- `Wrappers` holds Option and Result.
- `Text` holds the character classes, `lower`, `strip`, space removal, decimals and `join`.
- `Calendar` holds proleptic Gregorian dates, with `toordinal`, `weekday()` and
  `isoformat()`.
- `SizeParser` is parse_size.
- `Records` holds the listing and snapshot records, and the filter/count comprehensions.
- `Ranking` holds the stable descending sort and the top-N slice.
- `IntentMatcher` has one recognizer per pattern. Each comes with a lemma that the
  recognizer accepts exactly what the regular expression matches, and captures the same
  groups.
- `Classifier` holds the rule order and first-match-wins.
- `QueryEngine` holds the aggregations, the wording, the error paths and the whole of
  query_box.
- `Tallies` holds the counting maps and the byte sums.

The clock, the network and the storage service are not called.

- Today's date is a parameter.
- The bucket listing, with each object's metadata, is a value. It either holds the objects,
  or it holds the text of the exception that listing or `head_object` raised.

The loops of the source are methods with loop invariants, each proved equal to a
specification function:

- building the snapshot;
- count_by_type;
- uploads_by_user;
- storage_by_date;
- dashboard.

The expressions of the source (comprehensions, `sorted`, the regexes and parse_size) are
functions with lemmas.

Where the specification of the service and the code disagree, the model follows the code:

- The specification says that query answers on an empty snapshot never fail. In the code:
  - a last-days question whose window would start before 0001-01-01 raises, even on an empty
    snapshot;
  - so does a size question whose literal parse_size rejects ("500b").

  `QueryEngine.ErrorCauses` states when a reply is an error in this model, whose numbers
  are exact; the floating-point and integer-conversion failures of CPython it does not
  model are listed under "Left out".
- The specification says the uploader is never empty. The code substitutes `"unknown"` only
  when the metadata key is absent. An uploader stored as the empty string stays empty
  (`Records.RawUploader`).
- The specification describes the uploader counts as lower-cased. uploads_by_user and
  dashboard tally the metadata as stored, without lower-casing. Only query_box lower-cases
  it (`Tallies.Uploaders` versus `Records.BuildSnapshot`).
- The specification lists "how many <ext> files were uploaded this month" as an intent. The
  code can never answer it: every question it matches is claimed by the general month rule
  or by an earlier rule (today, last days, this week), all of which are tried first
  (`Classifier.ExtMonthShadowed`).

## Model

| member | source | states |
|---|---|---|
| Text.Lower | app.py:209 | lower() keeps the length, maps each character by the ASCII lower-case mapping, and leaves no upper-case letter |
| Text.StripSpec | app.py:209 | strip() returns the middle of the text: what remains neither starts nor ends with whitespace, and everything cut off before or after is whitespace |
| Text.RemoveSpacesSpec | app.py:197 | replace(' ', '') keeps only characters of the input other than the space, and returns a text without spaces unchanged |
| Text.RemoveSpacesConcat | app.py:197 | replace(' ', '') of a concatenation is the concatenation of the parts' results, and of one character is nothing for the space and the character otherwise: every other character is kept, in order |
| Text.Join | app.py:263 | a non-empty join starts with its first item |
| Text.NatToString | app.py:228 | the decimal rendering of a count is a non-empty digit string, without a leading zero except for 0 itself, that reads back as the count |
| Calendar.Weekday | app.py:238 | weekday() lies in 0..6 |
| Calendar.FirstDateIsMonday | app.py:238 | 0001-01-01 is a Monday (weekday 0), which anchors weekday() to the ordinal |
| Calendar.EpochOrdinal | app.py:238 | 1970-01-01 has ordinal 719163 and is a Thursday (weekday 3) |
| Calendar.OrdinalOrder | app.py:234 | comparing dates (>=, ==) is the same as comparing their ordinals |
| Calendar.NextDayOrdinal | app.py:233 | the day after a date has the next ordinal, so subtracting a timedelta of N days is an ordinal N lower |
| Calendar.WeekStart | app.py:238 | today - timedelta(days=today.weekday()) is a Monday at most six days before today |
| Calendar.WeekStartInRange | app.py:238 | the week start is a valid date no later than today |
| Calendar.IsoFields | app.py:152 | isoformat() is ten characters: four digits of the year, a hyphen, two digits of the month, a hyphen, two digits of the day, each reading back as its field |
| Calendar.IsoFormatInjective | app.py:152 | two dates with the same isoformat() are the same date |
| SizeParser.ReadDecimal | app.py:199 | the float() reading of an unsigned decimal accepts digits with at most one point and at least one digit, and splits the text there |
| SizeParser.Scaled | app.py:199-203 | the scaling fails, with float()'s ValueError naming the number, exactly when the number is not a decimal; otherwise it is the floor of the decimal's value times the unit |
| SizeParser.ParseSize | app.py:196-204 | an error names the normalised text given to int() or, with the unit cut off, to float(); a result without a unit suffix is the integer the normalised digits spell; without a kb, mb or gb suffix, int() succeeds exactly when the normalised text is a non-empty run of digits (so "" and "500b" fail) |
| SizeParser.ParseCanonical | app.py:198-204 | the same promises for a text already normalised, and then the value is the integer the digits spell |
| SizeParser.ParseUnit | app.py:198-203 | with a kb, mb or gb suffix, the only possible error is float()'s, naming the text before the suffix |
| SizeParser.ParseSizeSuffix | app.py:198-203 | a kb, mb or gb suffix scales the number in front of it by 1024, 1024^2 or 1024^3 |
| SizeParser.ParseSizeScaled | app.py:199-203 | "w.f" + unit gives floor(w.f × unit) bytes |
| SizeParser.ParseSizeWhole | app.py:199-203 | a whole number with a unit gives exactly number × unit bytes |
| SizeParser.ParseSizeBare | app.py:204 | the decimal text of any natural number parses back to that number |
| SizeParser.PlainBytesRejected | app.py:204 | a number followed by a plain b ("500b", "1.5 b") is rejected by int(), with the b in the message |
| SizeParser.TwoPointsRejected | app.py:199-203 | a number with two points and a unit is rejected by float() |
| SizeParser.OnePointTwoPointThreeMegabytes | app.py:200-201 | parse_size("1.2.3mb") fails with float()'s ValueError for "1.2.3" |
| SizeParser.ParseSizeCanonical | app.py:197 | case and spaces are normalised first: the normal form has neither, and parsing it gives the same result as parsing the raw text |
| SizeParser.FiveMegabytes | app.py:197-201 | parse_size("5 MB") is 5 × 1024^2 |
| SizeParser.ScaledLiteral | app.py:197-203 | a run of digits and points, an optional space and a unit suffix is read by float() and scaled by the unit |
| Records.RawUploader | app.py:217 | an object without uploader metadata gets "unknown"; otherwise it gets the stored value, even an empty one |
| Records.BuildSnapshot | app.py:214-223 | the snapshot loop gives one record per object, in listing order, with key, size and date copied and the uploader lower-cased |
| Records.Snapshot | app.py:214-223 | one record per listed object, with its key, size and date, and an uploader without upper-case letters |
| Records.FilterMembers | app.py:269 | a comprehension with a condition keeps exactly the records that satisfy it |
| Records.FilterConcat | app.py:269 | filtering two parts one after the other gives the filtered parts in the same order |
| Records.CountWhere | app.py:227 | a conditional count is at most the number of records |
| Records.CountWhereMonotone | app.py:227-249 | counting with a weaker condition never counts fewer records |
| Ranking.SortBySizeMultiset | app.py:261 | the sort is a permutation of its input |
| Ranking.SortBySizeSorted | app.py:261 | sorted(..., key=size, reverse=True) orders by non-increasing size |
| Ranking.SortBySizeStable | app.py:261 | records of equal size keep their relative order |
| Ranking.SortBySizeIsStableSort | app.py:261 | a sequence is the sort's result if and only if it is ordered by non-increasing size and holds, for each size, the input's records of that size in their input order |
| Ranking.TopN | app.py:261 | [:n] returns min(n, number of records) records |
| Ranking.TopNSorted | app.py:261 | the top-N list is ordered by non-increasing size |
| Ranking.TopNFromSnapshot | app.py:261 | the top-N list is a sub-multiset of the records; it is all of them when n covers them, and empty when n is 0 |
| Ranking.TopNSelectsLargest | app.py:261 | no record left out of the top-N is larger than a record in it |
| Ranking.TopNStable | app.py:261 | among records of one size, the top-N keeps a prefix of them in input order |
| Ranking.FilterWithSize | app.py:269-270 | filtering keeps snapshot order: the filtered records of one size appear in the order they have among all records of that size |
| Ranking.TopNOfFilterStable | app.py:268-270 | the filtered top-N keeps, of each size, the first records of that size in the snapshot that pass the filter |
| Ranking.SortBySize | app.py:261 | the sort has as many records as its input |
| IntentMatcher.FilePhraseAt | app.py:226 | `files? (verb )?`: a result is one of the four spellings found at the position; no result means none of them occurs there |
| IntentMatcher.FilePhraseUnique | app.py:226 | when the text after the phrase cannot start like the verb, the phrase the recognizer picks is the one the rest of the question needs |
| IntentMatcher.PhraseThenIff | app.py:226 | the phrase recognizer followed by a fixed tail matches exactly when some spelling of `files? (verb )?` followed by the tail occurs |
| IntentMatcher.RunSpec | app.py:230 | a greedy class run covers only class characters and stops before one outside the class |
| IntentMatcher.SearchSpec | app.py:226 | re.search returns the leftmost matching position, and returns nothing exactly when no position matches |
| IntentMatcher.TodayAtIff | app.py:226 | the today recognizer matches exactly where `files? (were )?uploaded today` does |
| IntentMatcher.LastDaysAtIff | app.py:230 | the last-days recognizer captures ds exactly when a file phrase, "uploaded in the last ", the digits ds and " day" occur; the greedy \d+ takes all the digits |
| IntentMatcher.WeekAtIff | app.py:237 | the week recognizer matches exactly where `files? (were )?uploaded this week` does |
| IntentMatcher.MonthAtIff | app.py:242 | the month recognizer matches exactly where `files? (were )?uploaded this month` does |
| IntentMatcher.LiteralAtIff | app.py:246 | `[\d.]+ ?[kmg]?b` is read exactly when the literal's text occurs, and the number, space and unit are read back |
| IntentMatcher.LargerAtIff | app.py:246 | the size recognizer captures a literal exactly when a file phrase, "larger than " and that literal's text occur |
| IntentMatcher.RunAfterIff | app.py:252 | a lead, a greedy class run and a separator outside the class capture the run exactly when lead + run + separator occurs |
| IntentMatcher.ExtMonthAtIff | app.py:252 | the per-extension month recognizer captures w exactly when "how many ", a word w, a space and the month phrase occur |
| IntentMatcher.ExtMonthImpliesMonth | app.py:242-252 | wherever the per-extension month pattern matches, the general month pattern matches too |
| IntentMatcher.TopStorageAtIff | app.py:258 | the top-storage recognizer captures ds exactly when "top ", the digits ds, a space, a file phrase and "taking max storage" occur |
| IntentMatcher.ExtBySizeAtIff | app.py:265 | `(\w+) files? by size` captures w exactly when w, a space, a file phrase and "by size" occur |
| IntentMatcher.TopExtAtIff | app.py:265 | the top-by-extension recognizer captures (ds, w) exactly when "top ", ds and a space occur, followed by the extension phrase for w |
| IntentMatcher.TopUploaderWeekAtIff | app.py:280 | the top-by-uploader recognizer captures (ds, w) exactly when "top ", ds, " files uploaded by ", w and " this week" occur |
| IntentMatcher.UploaderAtIff | app.py:274 | the uploader rule is anchored at position 0 and captures c exactly when the lead is followed by c; c is a non-empty line that runs to the end of the question or to a line feed |
| Classifier.RuleOf | app.py:226-290 | every intent has its place in the rule order; only the unrecognised outcome has place 10 |
| Classifier.Rule | app.py:226-288 | a matching rule yields an intent of its own place, with captures its character classes allow |
| Classifier.FirstFromSpec | app.py:226-290 | trying the rules from k on gives the first that matches, or unrecognised exactly when none of them matches |
| Classifier.Classify | app.py:226-290 | the chosen intent is well formed, and a recognised intent is what its own rule yields |
| Classifier.ClassifySpec | app.py:226-290 | first match wins: the intent comes from the first rule that matches, every earlier rule fails, and the question is unrecognised exactly when all ten fail |
| Classifier.Normalize | app.py:209 | the normalised question contains no upper-case letter |
| Classifier.ExtMonthShadowed | app.py:242-256 | a question the per-extension month rule matches is decided by the month rule or an earlier one |
| Classifier.ExtMonthNeverAnswers | app.py:252-256 | no question is ever classified as the per-extension month intent |
| Classifier.RuleMentionsFile | app.py:226-288 | every rule that matches, matches a question containing "file" |
| Classifier.NoFileUnrecognized | app.py:289-290 | a question without "file" is not understood |
| Classifier.UploaderQuestion | app.py:274-276 | "how many files are uploaded by U", in any letter case, asks for lower(U) when U is one line without surrounding whitespace |
| Classifier.StripKeeps | app.py:276 | strip() leaves text that neither starts nor ends with whitespace unchanged |
| QueryEngine.DaysBefore | app.py:233 | today - timedelta(days=N) is today's ordinal minus N, and fails exactly when the result would fall before 0001-01-01 |
| QueryEngine.ReplyOutcome | app.py:226-292 | a recognised intent fails only in the size rule, when parse_size rejects the literal, or in the last-days rule, when the window starts before the first date; any other reply starts with a count or "Top " |
| QueryEngine.CountReplyReadsBack | app.py:226-278 | every counting reply that succeeds (today, last days once the window starts on a valid date, this week, this month, larger than once parse_size accepts the literal, per extension, by uploader) is the count's decimal followed by a space-led sentence, and that leading number reads back as the number of snapshot records satisfying the intent's condition |
| QueryEngine.Reply | app.py:226-288 | a reply fails only for the size and the last-days rules; a successful reply starts with a digit or with "T" |
| QueryEngine.RenderList | app.py:262-263 | the rendering of the top-N list is empty exactly when no file is listed |
| QueryEngine.RenderListCons | app.py:262-263 | the rendering is the first file's "key (size bytes)" followed, if more files are listed, by ", " and the rendering of the rest, in order |
| QueryEngine.TopNothingListed | app.py:258-263 | a top-N question that selects no file is answered with the heading "Top n files by size: " alone |
| QueryEngine.TopZeroHeading | app.py:258-263 | "top 0 files taking max storage" is answered "Top 0 files by size: " |
| QueryEngine.QueryResponse | app.py:206-292 | the status is 200 or 500, and a failed listing gives "Error: " + its message with status 500 |
| QueryEngine.FallbackIffUnrecognized | app.py:289-290 | the exact fallback sentence is returned if and only if no rule matches the normalised question |
| QueryEngine.ErrorCauses | app.py:291-292 | once the bucket is listed, the status is 500 exactly for a size literal parse_size rejects or a last-days window before the first date |
| QueryEngine.LiteralSize | app.py:246-248 | a captured literal without k, m or g fails in int(); with one, its number is scaled by the unit |
| QueryEngine.PlainBytesReply | app.py:248 | the size rule on a plain-byte literal fails with parse_size's int() error |
| QueryEngine.PlainBytesQuestion | app.py:246-250 | a size question in plain bytes ("larger than 500b") is answered with status 500 and the int() error text |
| QueryEngine.LargerMonotone | app.py:249 | a larger threshold never counts more files |
| QueryEngine.TodayWithinWeek | app.py:227-239 | the files counted for today are among those counted for this week |
| QueryEngine.WeekWithinLastSixDays | app.py:233-239 | this week is contained in the window "the last 6 days" |
| QueryEngine.LastDaysMonotone | app.py:233-234 | a longer look-back never counts fewer files |
| QueryEngine.TodayWithinLastDays | app.py:227-234 | today's files are inside every last-N-days window |
| QueryEngine.ExtMonthWithinMonth | app.py:243-255 | the per-extension month count is at most the month count |
| QueryEngine.UploaderTally | app.py:277 | an uploader count is at most the number of objects |
| QueryEngine.UploaderCountMatches | app.py:217-277 | counting the snapshot by uploader counts the objects whose lower-cased metadata equals the user |
| QueryEngine.UploaderAnswer | app.py:274-278 | when none of the rules tried before it (places 0 to 7) matches and U is one line without surrounding whitespace, the uploader question, in any case, is answered with the count of objects whose metadata equals the user up to case, followed by " files uploaded by " + the user + "." |
| QueryEngine.ExtFilterIsBucket | app.py:269 | the extension filter for a captured word keeps exactly the records that count_by_type files under that extension |
| Tallies.Tally | app.py:107-110 | every count in the map lies between 1 and the number of labels |
| Tallies.TallyCounts | app.py:107-110 | the counting map's keys are exactly the labels seen, and each count is the label's number of occurrences |
| Tallies.TallyTotal | app.py:107-110 | the counts add up to the number of labels |
| Tallies.LastSegment | app.py:109 | split('.')[-1] contains no point, and it is the whole key when the key has none |
| Tallies.ExtensionMatchesSuffix | app.py:109 | for a word without a point, key.endswith('.' + ext) holds exactly when the key has a point and its bucket is ext |
| Tallies.NoExtBucketShared | app.py:109 | a key ending in ".no_ext" falls in the same bucket as every key without a point |
| Tallies.CountByType | app.py:107-110 | count_by_type's loop computes the tally of the objects' buckets |
| Tallies.UploadsByUser | app.py:134-138 | uploads_by_user's loop computes the tally of the raw uploader values |
| Tallies.ExtensionCountsTotal | app.py:107-110 | the extension counts add up to the number of objects |
| Tallies.UploaderCountsTotal | app.py:134-138 | the uploader counts add up to the number of objects |
| Tallies.StorageByDate | app.py:150-153 | storage_by_date's loop sums the sizes of the objects whose isoformat date equals the given string |
| Tallies.SumSizes | app.py:150-153 | a byte sum under any condition never exceeds total_storage's sum |
| Tallies.TotalBytes | app.py:163 | total_storage's sum is at least the size of every object |
| Tallies.SumSizesPartition | app.py:163 | the bytes a condition selects plus the bytes it does not select are total_storage's sum |
| Tallies.Dashboard | app.py:176-185 | the dashboard's single pass computes the same bucket tally, raw uploader tally and byte total as the separate endpoints |
| Tallies.StorageOnDate | app.py:152 | asking with a date's isoformat sums exactly the objects of that day |
| Tallies.MisshapenDateSelectsNothing | app.py:152 | a date string that is not ten characters long ("2024-1-5") matches no object |

## Left out

- HTTP and Flask are not modelled: routing, `jsonify`, `render_template`, `send_file`, the
  upload, download and listing endpoints, and files_by_date. They are wiring around the core.
- The 400 reply of storage_by_date for a missing `date` parameter is not modelled. The
  listing and the byte sum start after it.
- The storage calls (`list_objects_v2`, `head_object`) are not made. The listing and
  metadata arrive as a value. Pagination past the first 1000 objects is not modelled, and
  neither is the exact text of a botocore exception: it is an opaque message string.
- A missing or non-JSON request body is not modelled. The code fails on `data.get` before
  its `try`.
- A request body without a 'query' key is modelled (as the empty question). A 'query'
  value that is not a string is not.
- `total_gb` is not modelled: it is a floating-point division by 1024^3. The model stops
  at the integer byte counts.
- Time zones are not modelled: today's date is a parameter, and LastModified arrives as its
  calendar date.
- SizeParser.ReadDecimal: models float() on unsigned decimals without an exponent only.
  Signs, exponents, underscores, surrounding whitespace (tabs, line feeds and other
  Python whitespace, which float() skips: "5\tkb" is 5120 bytes in CPython), "inf" and
  "nan" are not read. The query path never passes
  them, because the capture is `[\d.]+`.
- SizeParser.Scaled: computes floor(decimal × unit) exactly. CPython rounds the decimal to
  a binary double and multiplies that, so its result can differ in either direction:
  "0.99999999999999999kb" is 1024 bytes in CPython and 1023 here, and above 2^53 bytes
  the two differ by more than one byte.
- QueryEngine.ReplyOutcome and QueryEngine.ErrorCauses do not model float overflow: a
  literal whose float() is infinite, or whose product with the unit is, makes
  int() raise OverflowError ("cannot convert float infinity to integer"), so CPython
  answers 500 where the model answers with a count.
- QueryEngine.ReplyOutcome and QueryEngine.ErrorCauses do not model the 4300-digit limit of
  int() on CPython 3.11 and later: a captured digit run longer than 4300 digits (the day
  count, the n of the three top-N rules) raises ValueError there, a 500, where the model
  answers normally.
- SizeParser.ParseSize: int() on the bare form accepts ASCII digits only. Signs,
  underscores, surrounding whitespace other than the space, non-ASCII digits and the 4300-digit limit of int() are not modelled.
- Text.Lower: models only the ASCII lower-case mapping; Python's full Unicode mapping is not
  modelled.
- Cased non-ASCII characters therefore stay unchanged, and so do the regex classes: \d is
  [0-9] and \w is [A-Za-z0-9_] in this model, not the Unicode classes of Python's re.
- QueryEngine.DaysBefore: for N above 999999999, timedelta raises its own OverflowError,
  whose message differs. The model reports "date value out of range" for every window
  before 0001-01-01.
- Dates after 9999-12-31 cannot occur, so they are not modelled.
- The `today - timedelta` subtraction fails only on the low side.
- langchain_mcp_agent.py is not part of this model. It is a separate client of the same
  bucket.
- query_box's rule dispatch is not modelled as a method. It has no loop or mutable state,
  so it is the function QueryEngine.QueryResponse. Only its snapshot loop is a method
  (Records.BuildSnapshot).
