# ag777 utils — verified model of the request, date, exception, property and set helpers

This project models five helper classes of the `com.ag777.util` Java library:

- **HttpUtils**, a thin layer over OkHttp. It builds GET URLs, form bodies, header lists and multipart bodies from maps. It builds requests and reads responses with either a strict rule (the status must be 2xx) or a force rule (the status is ignored). It keeps one lazily built shared client and cancels a client's calls by tag.
- **DateUtils**, with Joda-Time's `LocalDate` replaced by a day number (0 = 1970-01-01, a Thursday). Its ISO day of the week (1 = Monday … 7 = Sunday) advances by one each day. On top of this sit the weekday/weekend day lists, the before/after comparisons, the attendance bit string of `dateStatistics`, the start/end-of-day strings and the `" 至 "` date-range split.
- **ExceptionHelper**. It searches a throwable's stack frames for the frame to blame, then writes that frame and the message as a fixed JSON-like record, with quotes in the message escaped. The instance form keeps an exclude list that grows on each call.
- **PropertyUtils**. Typed getters over a loaded `java.util.Properties` table: string, int, long and boolean lookups, with defaults, trimming and strict boolean parsing.
- **SetUtils.toString**. It joins a set's items in iteration order, with an optional separator and `"null"` for null items.

How Java is represented:

- Java `null` is `Option.None`.
- A thrown exception is `Result.Err` with the exception as a value, e.g. `IOException("404||Not Found")`.
- A `Map` is its entries in iteration order.
- A `long` bit pattern is a 64-element `seq<bool>`.
- Loops in the source are `while`/`for` loops in the model. Each is proved against a specification function, and that function's properties are proved as lemmas.
- There are three mutable objects, and each is a class: the shared-client holder, a dispatcher's call lists, and the exception helper's exclude list.
- The caller's map that `fillStartTimeAndEndTime` writes into is a class too.

Things the source calls but does not define are passed in as function parameters:

- OkHttp's URL parser (`parsesAsUrl`);
- the JSON reader (`toMap`, `fromJson`);
- `FileUtils.write` (`write`);
- `ListUtils.removeByFilter` (`removeByFilter`);
- `Utils.getUtilsPackageName()` (`utilsPackageName`).

Shared string operations live in module `Text`. They cover what the Java standard library does for `String.split`, `trim`, `indexOf`, `Integer.toString`/`parseInt` and `replaceAll("\"", "\\\\\"")`, and their round trips are proved there.

Two behaviours of the code are kept as written:

- In `dateStatistics`, `dateList.contains(endDate)` asks a list of strings for a `LocalDate`. It is therefore always false, so the end date's digit is always `'0'`.
- `PropertyUtils.getProperty` calls `trim()` and throws the result away, so values come back untrimmed.

## Model

| member | source | states |
|---|---|---|
| Text.Split | src/com/ag777/util/lang/DateUtils.java:811 | String.split loses nothing (the pieces joined by the separator give the input back), and no piece contains the separator; a text without the separator is one piece, and otherwise the first piece ends at the leftmost occurrence and the rest is the split of what follows it |
| Text.SplitLeftmost | src/com/ag777/util/lang/DateUtils.java:811 | when the separator occurs at k and nowhere before, the first piece is the text before k and the rest is the split of the text after that occurrence |
| Text.SplitWhole | src/com/ag777/util/lang/DateUtils.java:811 | a text in which the separator occurs nowhere splits into itself alone |
| Text.JoinSplit | src/com/ag777/util/lang/DateUtils.java:811 | pieces free of a one-character separator, once joined, split back into exactly those pieces |
| Text.ParseInteger | src/com/ag777/util/file/PropertyUtils.java:72 | parsing succeeds exactly when the text is an optional sign followed by at least one digit and its value lies in the type's range, and then gives that value (so "+7" and "007" read as 7); otherwise NumberFormatException for the given text |
| Text.EscapeQuotes | src/com/ag777/util/lang/exception/ExceptionHelper.java:216 | a quote-free text is unchanged, and escaping never shortens the text |
| Text.ParseDecimalString | src/com/ag777/util/file/PropertyUtils.java:72 | parsing the decimal text of an in-range number gives that number |
| Text.TrimEnds | src/com/ag777/util/file/PropertyUtils.java:96 | what trim keeps is empty or begins and ends with a character above the space |
| Text.TrimIdempotent | src/com/ag777/util/file/PropertyUtils.java:96 | trimming twice is trimming once |
| Text.ToLowerAscii | src/com/ag777/util/file/PropertyUtils.java:96 | same length; each upper-case letter becomes its lower-case letter and every other character is kept |
| Text.EscapeRoundTrip | src/com/ag777/util/lang/exception/ExceptionHelper.java:216 | unescaping the escaped text gives the original text |
| SetUtils.Rendered | src/com/ag777/util/lang/collection/SetUtils.java:44-49 | each item is written by its toString, a null item as "null", one string per item in order |
| SetUtils.ToString | src/com/ag777/util/lang/collection/SetUtils.java:32-52 | a null or empty set gives ""; otherwise the rendered items joined by the separator, or concatenated when the separator is null |
| SetUtils.SingleItem | src/com/ag777/util/lang/collection/SetUtils.java:38-43 | a one-item set is that item's text with no separator |
| SetUtils.SeparatorCount | src/com/ag777/util/lang/collection/SetUtils.java:36-51 | n items are written with exactly n - 1 separators |
| SetUtils.NullSeparatorConcatenates | src/com/ag777/util/lang/collection/SetUtils.java:41-43 | with a null separator the length is exactly the items' lengths |
| SetUtils.ItemsRecoverable | src/com/ag777/util/lang/collection/SetUtils.java:36-51 | when no item contains the one-character separator, splitting the output gives back the items |
| SetUtils.NullItemExample | src/com/ag777/util/lang/collection/SetUtils.java:45-49 | {"a", null} joined by "," is "a,null" |
| PropertyUtils.GetProperty | src/com/ag777/util/file/PropertyUtils.java:111-118 | a value is found exactly when the key is present, and it is the stored value untrimmed |
| PropertyUtils.GetStr | src/com/ag777/util/file/PropertyUtils.java:57-59 | present exactly when the key is, with the stored value |
| PropertyUtils.GetStrOr | src/com/ag777/util/file/PropertyUtils.java:61-63 | the default for an absent key, the stored value otherwise |
| PropertyUtils.GetIntOr | src/com/ag777/util/file/PropertyUtils.java:69-75 | absent key gives the default; a present key gives Ok exactly when its trimmed text is a signed or unsigned decimal within the int range, with that text's value, and NumberFormatException for the trimmed text otherwise |
| PropertyUtils.GetInt | src/com/ag777/util/file/PropertyUtils.java:65-67 | absent key gives null; a present key gives Ok exactly when its trimmed text is a decimal within the int range, with that value, and NumberFormatException otherwise |
| PropertyUtils.GetLongOr | src/com/ag777/util/file/PropertyUtils.java:81-87 | as GetIntOr with the long range: Ok exactly for an in-range decimal, with its value, NumberFormatException otherwise |
| PropertyUtils.GetLong | src/com/ag777/util/file/PropertyUtils.java:77-79 | absent key gives null; a present key gives Ok exactly when its trimmed text is a decimal within the long range, with that value, and NumberFormatException otherwise |
| PropertyUtils.GetBooleanOr | src/com/ag777/util/file/PropertyUtils.java:93-105 | absent or "" gives the default; the lower-cased, trimmed value "true"/"false" gives true/false, and anything else raises RuntimeException quoting it, each case in both directions |
| PropertyUtils.GetBoolean | src/com/ag777/util/file/PropertyUtils.java:89-91 | the same cases with a null default |
| PropertyUtils.ContainsKey | src/com/ag777/util/file/PropertyUtils.java:107-109 | containsKey is true exactly when getProperty finds a value |
| PropertyUtils.NonNumericRaises | src/com/ag777/util/file/PropertyUtils.java:65-87 | a present value whose trimmed text is not a decimal makes getInt and getLong raise NumberFormatException for that text |
| PropertyUtils.IntWidthExceeded | src/com/ag777/util/file/PropertyUtils.java:65-87 | a stored decimal above the int range but within the long range raises in getInt and reads back as that number in getLong |
| PropertyUtils.NonCanonicalIntegers | src/com/ag777/util/file/PropertyUtils.java:65-75 | "+7" and " 007 " read as 7, and "abc" raises NumberFormatException |
| PropertyUtils.ContainsKeyIffGetStr | src/com/ag777/util/file/PropertyUtils.java:107-109 | containsKey is true exactly when getStr finds a value |
| PropertyUtils.GetStrOrDefaultIffAbsent | src/com/ag777/util/file/PropertyUtils.java:61-63 | getStr(key, d) gives d exactly when the key is absent (for stored values other than d) |
| PropertyUtils.GetIntReadsDecimal | src/com/ag777/util/file/PropertyUtils.java:69-75 | a stored decimal int surrounded by trimmable padding reads back as that int |
| PropertyUtils.GetLongReadsDecimal | src/com/ag777/util/file/PropertyUtils.java:81-87 | a stored decimal long surrounded by trimmable padding reads back as that long |
| PropertyUtils.WhitespaceOnlyBooleanRaises | src/com/ag777/util/file/PropertyUtils.java:95-102 | a value of one space is not "", so it is parsed and raises |
| PropertyUtils.BooleanExample | src/com/ag777/util/file/PropertyUtils.java:95-98 | " TRUE " reads as true |
| DateUtils.IsWeeken | src/com/ag777/util/lang/DateUtils.java:454-456 | a day is a weekend day exactly when it is a Saturday or a Sunday, i.e. its day number is 2 or 3 modulo 7 (day 0 is a Thursday) |
| DateUtils.DayOfWeek | src/com/ag777/util/lang/DateUtils.java:454-456 | the ISO day of the week is between 1 and 7 |
| DateUtils.DayOfWeekAdvances | src/com/ag777/util/lang/DateUtils.java:454-456 | the next day's weekday is one more, and Sunday is followed by Monday |
| DateUtils.EpochExamples | src/com/ag777/util/lang/DateUtils.java:707-711 | 1970-01-01 is day 0, a Thursday; 2017-06-20 is day 17337, a Tuesday |
| DateUtils.Compare | src/com/ag777/util/lang/DateUtils.java:516-545 | compareTo is -1, 0 or 1 exactly when the first day is earlier, equal or later |
| DateUtils.IsBefore | src/com/ag777/util/lang/DateUtils.java:516-522 | true exactly when target is earlier than compare |
| DateUtils.IsAfter | src/com/ag777/util/lang/DateUtils.java:524-530 | true exactly when target is later than compare |
| DateUtils.IsNotBefore | src/com/ag777/util/lang/DateUtils.java:532-538 | true exactly when target is not earlier than compare |
| DateUtils.IsNotAfter | src/com/ag777/util/lang/DateUtils.java:540-546 | true exactly when target is not later than compare |
| DateUtils.ComparisonsConsistent | src/com/ag777/util/lang/DateUtils.java:516-546 | isNotBefore is !isBefore, isNotAfter is !isAfter, never both before and after, and isBefore(a, b) is isAfter(b, a) |
| DateUtils.DaysWhereMembers | src/com/ag777/util/lang/DateUtils.java:315-358 | a day is listed exactly when it lies in [start, end] and has the requested weekend status |
| DateUtils.DaysWhereAscending | src/com/ag777/util/lang/DateUtils.java:315-358 | the listed days are strictly ascending and inside [start, end] |
| DateUtils.DaysWherePartition | src/com/ag777/util/lang/DateUtils.java:315-358 | the weekday and weekend lists together have end - start + 1 days, and none when start > end |
| DateUtils.DayOfWeekShift | src/com/ag777/util/lang/DateUtils.java:454-456 | k <= 6 days later the weekday is k further on, modulo 7 |
| DateUtils.WeekHasTwoWeekendDays | src/com/ag777/util/lang/DateUtils.java:346-358 | any seven consecutive days hold exactly two weekend days |
| DateUtils.CollectDays | src/com/ag777/util/lang/DateUtils.java:320-326 | the loop from start while not after end collects exactly the days of the requested weekend status |
| DateUtils.GetDateListWithoutWeeken | src/com/ag777/util/lang/DateUtils.java:315-329 | the result holds exactly the non-weekend days of [start, end], strictly ascending |
| DateUtils.GetWeekenDateList | src/com/ag777/util/lang/DateUtils.java:346-358 | the result holds exactly the Saturdays and Sundays of [start, end], strictly ascending |
| DateUtils.TopOffset | src/com/ag777/util/lang/DateUtils.java:719-728 | the highest set bit: at least the gap, at least every non-negative offset, and the gap itself or some listed offset |
| DateUtils.ShiftOne | src/com/ag777/util/lang/DateUtils.java:720 | 1 << n has exactly bit n set |
| DateUtils.Or | src/com/ag777/util/lang/DateUtils.java:726 | a bit of a or b is set exactly when it is set in a or in b |
| DateUtils.TopBit | src/com/ag777/util/lang/DateUtils.java:730 | the highest set bit: set, with every bit above it clear |
| DateUtils.ToBinaryString | src/com/ag777/util/lang/DateUtils.java:730 | Long.toBinaryString: one digit per bit from the highest set bit down to bit 0 |
| DateUtils.DateStatistics | src/com/ag777/util/lang/DateUtils.java:716-736 | the loop of ORs, the binary string, the overwritten first digit and the reversal give the attendance string: '1' at each listed offset and at the gap when later dates are listed, '0' elsewhere and in the last place |
| DateUtils.StatisticsWithinRange | src/com/ag777/util/lang/DateUtils.java:716-736 | with all dates no later than the end: length interval + 1, character i < interval is '1' exactly when a listed date has offset i, and the last character is '0' |
| DateUtils.StatisticsWord | src/com/ag777/util/lang/DateUtils.java:719-729 | the number the loop builds is positive, below bit 63, and its highest set bit is the largest of the gap and the listed offsets |
| DateUtils.RenderedWord | src/com/ag777/util/lang/DateUtils.java:730-735 | the binary string with its leading digit zeroed, reversed, is the attendance string |
| DateUtils.StatisticsPattern | src/com/ag777/util/lang/DateUtils.java:707-711 | listing the first and third of four days gives "1010", whatever the start day |
| DateUtils.EarlierDateIgnored | src/com/ag777/util/lang/DateUtils.java:724-727 | a date before the start (negative offset) leaves the string unchanged |
| DateUtils.StatisticsExample | src/com/ag777/util/lang/DateUtils.java:707-711 | {"2017-06-20","2017-06-22"} from 2017-06-20 to 2017-06-23 gives "1010" |
| DateUtils.GetStartDate | src/com/ag777/util/lang/DateUtils.java:884-886 | the date followed by " 00:00:00" |
| DateUtils.GetEndDate | src/com/ag777/util/lang/DateUtils.java:892-894 | the date followed by " 23:59:59" |
| DateUtils.WithStartAndEnd | src/com/ag777/util/lang/DateUtils.java:875-876 | the two puts set start_date and end_date and leave every other key unchanged |
| DateUtils.GetStartTimeAndEndTime | src/com/ag777/util/lang/DateUtils.java:855-863 | a null date gives an empty map; otherwise exactly the keys start_date and end_date with the day's bounds |
| DateUtils.FillStartTimeAndEndTime | src/com/ag777/util/lang/DateUtils.java:871-878 | a null date returns the map untouched; otherwise the caller's map gets the two bounds and keeps every other key; a null map raises NullPointerException |
| DateUtils.DropTrailingEmpty | src/com/ag777/util/lang/DateUtils.java:811 | split's trailing-empty removal: a prefix of the pieces, only empty pieces removed, and no empty last piece kept |
| DateUtils.GetDateRange | src/com/ag777/util/lang/DateUtils.java:810-812 | without the separator the input alone; otherwise the pieces between separators less the trailing empty ones |
| DateUtils.DateRangeRoundTrip | src/com/ag777/util/lang/DateUtils.java:810-812 | the returned pieces followed by the empty pieces split dropped, joined by the separator, give the input back; no returned piece contains the separator |
| DateUtils.TwoDatesSplit | src/com/ag777/util/lang/DateUtils.java:810-812 | two space-free dates around " 至 " split into exactly those two dates |
| DateUtils.OverlappingSeparatorExample | src/com/ag777/util/lang/DateUtils.java:810-812 | " 至 至 " splits at the leftmost separator only: the pieces are "" and "至 " |
| DateUtils.DateRangeExample | src/com/ag777/util/lang/DateUtils.java:774 | '2016-07-07 至 2016-07-08' gives the two dates |
| ExceptionHelper.FrameString | src/com/ag777/util/lang/exception/ExceptionHelper.java:32 | a frame line is class.method( location ), where the location is "Native Method" for a native frame, file:line for a known file and non-negative line, the file alone for a negative line, and "Unknown Source" without a file |
| ExceptionHelper.ThrowableString | src/com/ag777/util/lang/exception/ExceptionHelper.java:30 | the class name, followed by ": " and the message when there is one |
| ExceptionHelper.BaseMessage | src/com/ag777/util/lang/exception/ExceptionHelper.java:69 | getMessage() when non-null, else toString() (the class name) |
| ExceptionHelper.GetStackTrace | src/com/ag777/util/lang/exception/ExceptionHelper.java:28-35 | frames + 1 lines: the throwable first, then each frame in order; a null throwable raises NullPointerException |
| ExceptionHelper.FormatErrMsg | src/com/ag777/util/lang/exception/ExceptionHelper.java:215-234 | the record opens with the message field, holds the escaped message there and ends with " }" |
| ExceptionHelper.MethodAndLineSlots | src/com/ag777/util/lang/exception/ExceptionHelper.java:215-234 | after the message and class slots come the method field label, the method name, the line field label, the line number in decimal and the closing " }" |
| ExceptionHelper.FormatFrame | src/com/ag777/util/lang/exception/ExceptionHelper.java:199-205 | a frame's record is the message, class, method and line fields filled with the escaped message, the frame's class name, method name and line number |
| ExceptionHelper.ClassSlot | src/com/ag777/util/lang/exception/ExceptionHelper.java:219-225 | right after the message slot comes the class field label and then the class name itself |
| ExceptionHelper.FormattedMessageRecoverable | src/com/ag777/util/lang/exception/ExceptionHelper.java:216 | unescaping the message slot gives back the original message |
| ExceptionHelper.FormattedMessageVerbatim | src/com/ag777/util/lang/exception/ExceptionHelper.java:216 | escaping adds one character per quote, and a quote-free message appears verbatim |
| ExceptionHelper.FirstFrameOfClass | src/com/ag777/util/lang/exception/ExceptionHelper.java:72-78 | the first frame accepted by the class test, and no earlier one |
| ExceptionHelper.ErrMsgOfClass | src/com/ag777/util/lang/exception/ExceptionHelper.java:64-83 | null exactly for a null throwable; a null class formats the first frame; no matching frame gives the base message |
| ExceptionHelper.GetErrMsgOfClass | src/com/ag777/util/lang/exception/ExceptionHelper.java:64-83 | the loop with break returns what the class search specifies |
| ExceptionHelper.ClassSearchPicksFirstOfClass | src/com/ag777/util/lang/exception/ExceptionHelper.java:72-78 | the first frame of the named class is the one formatted |
| ExceptionHelper.FilterExcludePackages | src/com/ag777/util/lang/exception/ExceptionHelper.java:159-173 | a null or empty list is returned as it is; otherwise removeByFilter with the "not under the work package" filter |
| ExceptionHelper.IsUnderPackage | src/com/ag777/util/lang/exception/ExceptionHelper.java:181-191 | false for a null or empty list; otherwise true exactly when some entry contains the class name |
| ExceptionHelper.FirstWorkFrame | src/com/ag777/util/lang/exception/ExceptionHelper.java:108-119 | the first frame under the work package and not excluded, and no earlier one |
| ExceptionHelper.ErrMsgInPackage | src/com/ag777/util/lang/exception/ExceptionHelper.java:96-126 | null exactly for a null throwable; a null work package gives the base message; no accepted frame gives the base message; otherwise the first accepted frame's record |
| ExceptionHelper.PackageSearchPicksFirstWorkFrame | src/com/ag777/util/lang/exception/ExceptionHelper.java:108-119 | the first frame under the work package and not excluded is the one formatted |
| ExceptionHelper.GetErrMsgInPackage | src/com/ag777/util/lang/exception/ExceptionHelper.java:96-126 | the loop with continue and break returns what the package search specifies |
| ExceptionHelper.ExcludedFrameSkipped | src/com/ag777/util/lang/exception/ExceptionHelper.java:111-117 | a frame contained in an exclude entry is skipped and the next work frame is formatted |
| ExceptionHelper.Helper.constructor | src/com/ag777/util/lang/exception/ExceptionHelper.java:38-46 | keeps the work package; a null exclude list becomes empty |
| ExceptionHelper.Helper.WithoutExcludes | src/com/ag777/util/lang/exception/ExceptionHelper.java:48-50 | keeps the work package with an empty exclude list |
| ExceptionHelper.Helper.GetErrMsg | src/com/ag777/util/lang/exception/ExceptionHelper.java:134-141 | true appends the utility package name to the exclude list, false leaves it; the result is the package search with the new list |
| ExceptionHelper.Helper.GetErrMsgExcludingUtils | src/com/ag777/util/lang/exception/ExceptionHelper.java:148-150 | the list grows by the utility package name and the package search runs with it |
| ExceptionHelper.RepeatedCallsGrowList | src/com/ag777/util/lang/exception/ExceptionHelper.java:134-141 | n calls with true leave the old list followed by n copies of the utility package name |
| HttpUtils.QueryPair | src/com/ag777/util/http/HttpUtils.java:581-585 | a pair is the key, '=', and the raw value (empty for null), with nothing encoded |
| HttpUtils.QueryPairs | src/com/ag777/util/http/HttpUtils.java:575-586 | one pair per entry, in iteration order |
| HttpUtils.GetGetUrl | src/com/ag777/util/http/HttpUtils.java:569-591 | the url unchanged for null params, a blank url or empty params; otherwise url + "?" + the pairs joined by '&' |
| HttpUtils.QueryLength | src/com/ag777/util/http/HttpUtils.java:575-586 | n pairs are separated by exactly n - 1 '&' |
| HttpUtils.QueryRecoverable | src/com/ag777/util/http/HttpUtils.java:575-586 | without '&' in keys and values the query splits back into the pairs |
| HttpUtils.QueryExample | src/com/ag777/util/http/HttpUtils.java:582 | {"a":"1","b":null} gives "a=1&b=" |
| HttpUtils.QueryNotEncoded | src/com/ag777/util/http/HttpUtils.java:583-585 | a space and '%' go into the query unencoded |
| HttpUtils.FormPairsEmptyIffAllNull | src/com/ag777/util/http/HttpUtils.java:636-644 | no form pair survives exactly when every value is null |
| HttpUtils.FormPairsWithoutNulls | src/com/ag777/util/http/HttpUtils.java:636-644 | without null values the form pairs are the GET query pairs |
| HttpUtils.NullEntryDropped | src/com/ag777/util/http/HttpUtils.java:637 | an entry with a null value adds no pair |
| HttpUtils.GetFormBody | src/com/ag777/util/http/HttpUtils.java:629-653 | a form-encoded text of the surviving pairs joined by '&', or an empty form body when params is null or empty or nothing survives |
| HttpUtils.EmptyFormIsNotEmptyPair | src/com/ag777/util/http/HttpUtils.java:648-652 | one empty-valued pair gives the text "a=", which differs from the empty form body |
| HttpUtils.GetHeaders | src/com/ag777/util/http/HttpUtils.java:532-544 | null exactly for a null or empty map; otherwise one header per entry in order, a null value as "" |
| HttpUtils.BaseNameIsLastSegment | src/com/ag777/util/http/HttpUtils.java:684 | File.getName: the suffix of the path after its last '/' |
| HttpUtils.FirstInvalidFile | src/com/ag777/util/http/HttpUtils.java:670-682 | the first null, missing or non-regular file, with every earlier one valid |
| HttpUtils.FieldParts | src/com/ag777/util/http/HttpUtils.java:689-694 | one field per param entry in order, null values kept as null fields |
| HttpUtils.FileParts | src/com/ag777/util/http/HttpUtils.java:683-684 | one part per accepted file, in order |
| HttpUtils.MultipartBody | src/com/ag777/util/http/HttpUtils.java:666-706 | the first rejected file's FileNotFoundException, or a multipart body with one part per file and one per param |
| HttpUtils.MultipartLayout | src/com/ag777/util/http/HttpUtils.java:683-694 | file parts come first, named "file" with the base name, then the field parts |
| HttpUtils.AddFileParts | src/com/ag777/util/http/HttpUtils.java:669-685 | the file loop stops at the first rejected file with its error, or yields one part per file |
| HttpUtils.GetMultipartBody | src/com/ag777/util/http/HttpUtils.java:666-706 | the builder's loops give exactly the specified body or error |
| HttpUtils.AddFieldParts | src/com/ag777/util/http/HttpUtils.java:688-695 | the field loop adds one field part per entry, in iteration order, a null value kept as a null field |
| HttpUtils.MissingFileReported | src/com/ag777/util/http/HttpUtils.java:675-678 | a missing second file raises FileNotFoundException naming its path |
| HttpUtils.GetRequest | src/com/ag777/util/http/HttpUtils.java:602-617 | null url raises NullPointerException, an unparsable one IllegalArgumentException; POST exactly when there is a body, else GET; headers and tag only when given |
| HttpUtils.StatusError | src/com/ag777/util/http/HttpUtils.java:320 | an IOException whose message is the code, "||", the status message |
| HttpUtils.ResponseCode | src/com/ag777/util/http/HttpUtils.java:296-301 | null exactly for a null response, else its code |
| HttpUtils.ResponseStrForce | src/com/ag777/util/http/HttpUtils.java:333-338 | empty for a null response, else the body whatever the status |
| HttpUtils.ResponseStr | src/com/ag777/util/http/HttpUtils.java:313-321 | empty for null, the body when successful, the status IOException otherwise |
| HttpUtils.Decode | src/com/ag777/util/http/HttpUtils.java:354-358 | an error propagates, an absent string gives empty, a present one is decoded |
| HttpUtils.ResponseMap | src/com/ag777/util/http/HttpUtils.java:350-359 | empty for null, the decoded body when successful, the status IOException otherwise |
| HttpUtils.ResponseMapForce | src/com/ag777/util/http/HttpUtils.java:371-380 | empty for null, else the decoded body whatever the status |
| HttpUtils.ResponseObj | src/com/ag777/util/http/HttpUtils.java:395-452 | empty for null, the decoded body (or JSON error) when successful, the status IOException otherwise |
| HttpUtils.ResponseObjForce | src/com/ag777/util/http/HttpUtils.java:419-476 | empty for null, else the decoded body or JSON error whatever the status |
| HttpUtils.ResponseInputStream | src/com/ag777/util/http/HttpUtils.java:488-496 | empty for null, the body stream when successful, the status IOException otherwise |
| HttpUtils.ResponseFile | src/com/ag777/util/http/HttpUtils.java:509-521 | empty for null, status error or write error propagated; after a successful write exactly the written file when it exists and is a regular file, and empty otherwise |
| HttpUtils.IsSuccessful | src/com/ag777/util/http/HttpUtils.java:317 | a response is successful exactly when its code is in 200..299 |
| HttpUtils.StrictIsForceOnSuccess | src/com/ag777/util/http/HttpUtils.java:313-428 | on a successful response the strict accessors equal their force twins |
| HttpUtils.StrictFailsExactlyOnStatus | src/com/ag777/util/http/HttpUtils.java:313-496 | with a decoder that does not fail, a strict accessor fails exactly on a non-successful status |
| HttpUtils.ForceIgnoresStatus | src/com/ag777/util/http/HttpUtils.java:333-428 | changing the status code and message does not change a force accessor's result |
| HttpUtils.StatusErrorExample | src/com/ag777/util/http/HttpUtils.java:320 | a 404 "Not Found" response raises IOException("404\|\|Not Found") |
| HttpUtils.CancelIfTagged | src/com/ag777/util/http/HttpUtils.java:139-141 | the same request, cancelled exactly when it was already or carries the tag |
| HttpUtils.CancelTagged | src/com/ag777/util/http/HttpUtils.java:138-147 | each call of the list tag-cancelled, in place and in order |
| HttpUtils.CancelEvery | src/com/ag777/util/http/HttpUtils.java:117-121 | each call of the list cancelled, in place and in order |
| HttpUtils.CancelTaggedExactly | src/com/ag777/util/http/HttpUtils.java:131-150 | calls without the tag are unchanged, calls with it end cancelled |
| HttpUtils.CancelTaggedIdempotent | src/com/ag777/util/http/HttpUtils.java:131-150 | cancelling a tag twice equals cancelling it once |
| HttpUtils.CancelEveryAfterTagged | src/com/ag777/util/http/HttpUtils.java:132-134 | cancelling everything after a tag equals cancelling everything |
| HttpUtils.Dispatcher.CancelAll | src/com/ag777/util/http/HttpUtils.java:119 | every queued and running call is cancelled |
| HttpUtils.Dispatcher.constructor | src/com/ag777/util/http/HttpUtils.java:71-77 | a new dispatcher has no queued and no running calls |
| HttpUtils.ClientRegistry.constructor | src/com/ag777/util/http/HttpUtils.java:55 | no shared client exists before the first client() call |
| HttpUtils.Client.constructor | src/com/ag777/util/http/HttpUtils.java:71-77 | a client with the given settings and an empty dispatcher of its own |
| HttpUtils.CancelAll | src/com/ag777/util/http/HttpUtils.java:117-121 | a null client is a no-op; otherwise all its calls are cancelled |
| HttpUtils.CancelAllTagged | src/com/ag777/util/http/HttpUtils.java:131-150 | with a tag, exactly the tagged queued and running calls are cancelled; a null tag cancels all and then raises NullPointerException exactly when some call exists; a null client is a no-op |
| HttpUtils.ClientRegistry.GetClient | src/com/ag777/util/http/HttpUtils.java:67-82 | builds the shared client with 15-second timeouts only when none exists, and otherwise returns the existing one |
| HttpUtils.ClientRegistry.ClientWithProgress | src/com/ag777/util/http/HttpUtils.java:90-110 | with a null listener, any builder is ignored and client() is returned |
| HttpUtils.ClientRegistry.NewCall | src/com/ag777/util/http/HttpUtils.java:553-558 | a new uncancelled call, on the given client, or on client() when it is null |
| HttpUtils.SharedClientIsStable | src/com/ag777/util/http/HttpUtils.java:67-82 | two calls of client() return the same client, which stays shared |
| HttpUtils.CancelExample | src/com/ag777/util/http/HttpUtils.java:138-147 | among calls tagged "a", "b" and untagged, cancelling "a" cancels only the first |

## Left out

- Network I/O is not modelled: `execute`, OkHttp's dispatcher internals, timeouts taking effect, the TLS setup through `SSLSocketClient`, and reading a body that fails with IOException. `isSuccessful` is OkHttp's 2xx rule.
- `clientWithProgress` with a non-null listener is not modelled, because it wraps responses in `ProgressResponseBody`, and `ProgressResponseBody` is not part of this model.
- Concurrency is not modelled. The `synchronized` blocks of `client()` and `cancelAll` run as sequential code, and the double check collapses into one check.
- The JSON reader, `FileUtils.write`, OkHttp's URL parser, `ListUtils.removeByFilter` and `Utils.getUtilsPackageName()` are function parameters, because their code is not shown.
- The Joda-Time wrappers of DateUtils are not modelled: parsing and formatting with templates, `between`, `plusToCopy`, `getMinimumToCopy`/`getMaximumToCopy`, `getMonthList*`, `getList`, `ergodiceDateList`, `convertStartDateAndEndDate`, `fillDateRange`, and the clock readers `getNow`, `getToday` and `getMonthListOfYear`. Day lists therefore hold day numbers, not formatted strings.
- Two DateUtils routines are not modelled. The `Editor1` overload of `getList` never advances its date, so it does not terminate. The octal `dateStatistics` overload uses int shifts that wrap after about ten days.
- DateUtils.DateStatistics: requires the end date to be 0 to 30 days after the start, and every listed date to be at most 30 days after the start. Beyond that, Java's int shift wraps (`1 << 31` is negative, and shift counts are taken mod 32), and that is not modelled. An unparsable date string is not modelled either. The list of dates is never null here, so the NullPointerException that Java's for-each raises on a null `dateList` (DateUtils.java:722) is not modelled.
- ExceptionHelper.FilterExcludePackages: removeByFilter is a function of the list and filter. An in-place change of the caller's list, which would then alias the helper's field, is not modelled.
- DateUtils.GetDateRange: takes a non-null string; the NullPointerException that `date_range.split` raises on a null argument (DateUtils.java:811) is not modelled.
- ExceptionHelper.Helper.constructor: stores a copy of the exclude list as a value. Java stores the caller's list itself, so `getErrMsg(t, true)` appends the utils package name to the caller's list on every call, and a fixed-size list such as one from `Arrays.asList` makes that call raise UnsupportedOperationException; neither the aliasing nor that exception is modelled.
- ExceptionHelper.GetErrMsgInPackage: exclude entries are non-null strings. The catch-all block matters only for a null work package, which is modelled; a null entry would also have been caught.
- ExceptionHelper.FrameString: uses the Java 8 format of `StackTraceElement.toString`, without the class-loader and module prefixes that later Java versions add.
- ExceptionHelper.ThrowableString: assumes `getLocalizedMessage` is `getMessage`, as in `Throwable` itself.
- HttpUtils.GetHeaders: OkHttp's own checks on header names and values are not modelled. Those checks reject an empty name or control characters. OkHttp's `Headers.Builder.add` also trims each value; the model keeps the raw value text.
- HttpUtils.GetRequest: the parsed URL is kept as the given string. OkHttp's canonicalisation is not modelled, including its `ws:`/`wss:` rewriting. A request without a tag has no tag.
- HttpUtils.GetMultipartBody: null field values are kept as null fields. OkHttp's rejection of a null field value and of a body with no parts is not modelled.
- HttpUtils.BaseName: takes '/' as the only path separator.
- Map keys are their `toString` text. A null key is not modelled.
- PropertyUtils.GetIntOr: `Integer.parseInt` and `Long.parseLong` accept only ASCII digits here. Java also accepts other Unicode decimal digits.
- PropertyUtils.GetBooleanOr: lower-cases ASCII letters only. Java's locale-dependent `toLowerCase` covers all alphabets.
- `PropertyUtils.load` is not modelled, because it is file I/O. The table is the key/value map after loading, and `Properties` default tables are not modelled.
- `StringUtils.isBlank` is not part of this model. It is taken to mean null, empty or only whitespace, with whitespace limited to the characters `Character.isWhitespace` accepts below U+0080 (space, tab, line feed, vertical tab, form feed, carriage return and U+001C to U+001F); the Unicode space separators Java also accepts are not modelled.
- `CollectionAndMapUtils.isEmpty`, `ListUtils.isEmpty` and `MapUtils.isEmpty` are taken to mean null or empty.
- `Timer`, `Console` and `PathUtils` are not modelled. They are wall-clock, console-printing and classloader/filesystem code.
