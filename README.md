# daily-task-log-builder: the log-row parser and the category classifier

This project is a Dafny model of `services.py`, the core of the daily task log builder. It covers the following members:

- **`DailyLogRow` object.** The model keeps the raw row, the parsed start time, the description, the status (`'DONE'`), the date and the weekday abbreviation.
- **`DailyLogRow.parse`.** It turns one raw log line `H:MM, description[, persons]` into a start time and a description:
  - it splits the row on commas and accepts exactly two or three fields;
  - it strips the time field and splits it on `':'`;
  - it reads the hour and the minute with `int()`;
  - it builds `timedelta(hours=…, minutes=…)`;
  - it strips the description;
  - it stores the weekday abbreviation of the row's date.

  Each way it can raise becomes an error value:
  - `None.strip()` on a wrong field count;
  - a failed tuple unpacking on a time without exactly one `':'`;
  - `int()` on a non-integer;
  - `timedelta` overflow.

  Nothing is assigned before the line that raises, so a failed parse leaves the object unchanged.
- **`DailyLogRow._get_category`.** A first-match-wins scan of an ordered keyword table against the lower-cased description.
- **`DailyLog.__init__`.** A plain store of a date text and its rows.

The files:

- `Services.dfy`:
  - the `DailyLogRow` class, with its constructor, the `Parse` method and the `GetCategory` loop;
  - the `DailyLog` class;
  - `ParseEntry`, the function that specifies `Parse`;
  - `FirstMatch`, the ordered scan that specifies `GetCategory`;
  - the lemmas about both, including the sample rows and descriptions of `test_services.py`.
- `PyStr.dfy`: the parts of Python's `str` the core uses:
  - `isspace`, `strip()`, `split(sep)`, `sep.join`, `count`;
  - `lower()`;
  - the substring `in` operator.

  Each comes with its round trips and invariants.
- `PyInt.dfy`: `int(text)` on base-10 text, and its inverse `str(n)`, with `int(str(n)) == n`.
- `Wrappers.dfy`: `Option` and `Result`.

The start time is an integer number of minutes since midnight. `timedelta` refuses a value whose day count, the floor of minutes / 1440, exceeds 999999999 in magnitude. That limit is modelled, and its failure is the `OutOfRange` error.

Two behaviours of the code are worth stating up front:

- **No default label.** The keyword table at `services.py:37-44` has neither a fallback label nor a "break" keyword, and the loop falls through to return `None`. So "take a break" and an unmatched description both give `None`; `CategoryBreak` and `CategoryUnknown` prove it. The expectations at `test_services.py:38-39` ("Break" and "Tasks") belong to another class, which is not part of this model.
- **Rows without a comma are refused.** The sample row at `test_services.py:8` has no comma. Under `services.py:17-33` it is refused: `ParseEntryNoComma` proves the failure. The three-field row at `test_services.py:10` parses to 7:30 and the expected description (`ParseEntryWithPersons`).

## Model

| member | source | states |
|---|---|---|
| Services.DailyLogRow.constructor | services.py:9-15 | the row and date are kept, start time, description and day are unset, status is 'DONE', and the parsed fields are consistent |
| Services.DailyLogRow.Parse | services.py:17-33 | the outcome is ParseEntry of the row; on success start time, description and the weekday abbreviation of the date are stored; on failure no field changes; row, status and date never change; consistency of the parsed fields is kept |
| Services.DailyLogRow.GetCategory | services.py:35-48 | the loop over the table returns exactly what the ordered first-match scan FirstMatch gives on the lower-cased description |
| Services.DailyLog.constructor | services.py:54-57 | date and rows are stored as given |
| Services.ParseEntry | services.py:17-31 | the parse of one row as a value, without an ensures of its own: Parse is proved to follow it, and FieldCountDecides, PersonsIgnored, ParseEntryOfFields, ParsedDescription, DescriptionIsTrimmedField and DescriptionKeepsText state its behaviour |
| Services.InTimedeltaRange | services.py:29 | the timedelta day-count limit, without an ensures of its own: ParseTime and TimeOf ensure every result lies within it, and ParseTimeValue and ParseTimeDigits show an overflow is the only failure of a well-formed time |
| Services.ParseTime | services.py:27-29 | a parsed time is within the timedelta range, and a time failure is never a field-count failure |
| Services.TimeOf | services.py:29 | a result is within the timedelta range; a failure is a non-integer part or an overflow |
| Services.FieldCountDecides | services.py:18-27 | the parse fails on the field count exactly when the row has neither one nor two commas, and the error then reports commas + 1 fields |
| Services.PersonsIgnored | services.py:19-26 | a third, persons field changes nothing: the three-field row parses exactly as the row made of its first two fields |
| Services.ParseEntryOfFields | services.py:18-31 | a two-field row parses exactly as its time column does, and on success stores the stripped description |
| Services.ParseTimeValue | services.py:27-29 | str(H) + ":" + str(MM) for any integers H and MM, negative ones included, gives 60*H + MM minutes with no range check on either part, unless the timedelta limit is exceeded |
| Services.ParseTimeDigits | services.py:27-29 | a time of plain digits "H:M", leading zeros allowed in either part ("07:05"), with any whitespace around it, gives 60*H + M minutes, unless the timedelta limit is exceeded |
| Services.ParseTimeSeparatorInside | services.py:27-29 | an information separator (U+001F) inside the hour makes int() fail: "7\x1f:30" is a NotInteger failure |
| Services.ParseTimeSeparatorAround | services.py:27-29 | the same separator around the time column is removed by strip(): "\x1f7:05\x1f" gives 425 minutes |
| Services.ParseTimeShape | services.py:27-28 | the time fails on its shape exactly when it does not hold exactly one ':', and the error reports the number of parts |
| Services.ParseTimeRejectsNonNumeral | services.py:27-29 | a character that is not whitespace, ':', an ASCII digit, a sign or '_' anywhere in the time field makes the parse fail |
| Services.DescriptionIsTrimmedField | services.py:31 | the description is the slice of the second field left after removing whitespace at both ends: it has none at either end, and only whitespace lies around it |
| Services.DescriptionKeepsText | services.py:31 | every non-whitespace character, ':' included, occurs in the description as often as in the second field |
| Services.ParseTimeExample | services.py:27-29 | "7:30" parses to 450 minutes |
| Services.StatusRowDescription | services.py:31 | the description field of the sample row strips to the expected text |
| Services.ParseEntryNoComma | services.py:18-27 | the comma-less sample row is refused with a single-field error |
| Services.ParseEntryWithPersons | services.py:17-31 | the sample row with a persons field parses to 450 minutes and the stripped description |
| Services.Category | services.py:46-48 | the category of a description, without an ensures of its own: GetCategory is proved to return it, FirstMatch and FirstMatchIs state first-match-wins in both directions, and the Category lemmas give the sample descriptions' labels |
| Services.FirstMatch | services.py:46-48 | None exactly when no keyword occurs in the text; otherwise the label of a rule whose keyword occurs and whose predecessors' keywords all do not |
| Services.FirstMatchIs | services.py:46-48 | conversely, when rule k is the first rule whose keyword occurs, the result is rule k's label |
| Services.FirstMatchAppend | services.py:37-48 | table order is precedence: a match in an earlier part of the table hides every later rule |
| Services.CategoryInvestigate | services.py:37-48 | 'AI recommendation investigate on Kourosh' is classified 'Investigation' |
| Services.CategoryMeeting | services.py:37-48 | 'DevOps Daily Meeting' is classified 'Communication', since 'meet' precedes 'daily' |
| Services.CategoryDiscuss | services.py:37-48 | 'Discuss on Source collection' is classified 'Discussion' |
| Services.CategoryCommunication | services.py:37-48 | 'Email Status Test & communication' is classified 'Communication' |
| Services.CategoryPairing | services.py:37-48 | 'Pairing on Other Source Setting up' is classified 'Pairing' |
| Services.CategoryDiscussing | services.py:37-48 | 'New Feature on Center discussing' is classified 'Discussion': matching is by substring |
| Services.CategoryDaily | services.py:37-48 | 'Compose daily Report' is classified 'Daily Works' |
| Services.CategoryBreak | services.py:37-48 | 'take a break' matches no keyword and gives None |
| Services.CategoryUnknown | services.py:37-48 | 'not exist category' matches no keyword and gives None |
| PyStr.Split | services.py:18-28 | str.split with one separator character, without an ensures of its own: SplitPieces, SplitJoin, SplitPair and SplitCount state what it returns |
| PyStr.Strip | services.py:27-31 | str.strip, without an ensures of its own: StripIsTrimmed, StripSplits, StripPadded, StripKeeps, StripTrimmed and CountStrip state what it returns |
| PyStr.Lower | services.py:47 | str.lower on ASCII letters, without an ensures of its own: LowerAppend states it works character by character, and the Category lemmas use it on the sample descriptions |
| PyStr.LowerAppend | services.py:47 | lower-casing a concatenation lower-cases each part |
| PyStr.Contains | services.py:47 | the substring `in` operator, without an ensures of its own: MissingChar and MissingExcept state when a keyword is absent, and FirstMatch is stated in terms of it |
| PyStr.SplitPieces | services.py:18 | split gives at least one piece, no piece holds the separator, and joining the pieces with it gives the text back |
| PyStr.SplitJoin | services.py:18 | splitting a join of separator-free pieces gives the pieces back |
| PyStr.SplitCount | services.py:18 | the number of pieces is the number of separators plus one |
| PyStr.StripIsTrimmed | services.py:27 | a stripped string has no whitespace at either end |
| PyStr.StripSplits | services.py:31 | the stripped string is a slice of the input with only whitespace on either side |
| PyStr.StripPadded | services.py:31 | padding a trimmed string with whitespace and stripping gives it back |
| PyStr.StripKeeps | services.py:27 | a non-whitespace character of the input survives stripping |
| PyStr.CountStrip | services.py:31 | stripping keeps the count of every non-whitespace character |
| PyStr.MissingChar | services.py:47 | a keyword with a character the text lacks is not in the text |
| PyStr.MissingExcept | services.py:47 | a keyword is not in the text when every window that could hold it does not |
| PyInt.ParseInt | services.py:29 | int() on base-10 text, without an ensures of its own: ParseIntOfDecimal, ParseIntDecimal and ParseIntDigits state what it accepts and reads, ParseIntNumeral states what it refuses, and ParseTimeSeparatorInside shows an information separator refused |
| PyInt.ParseIntOfDecimal | services.py:29 | int(str(n)) == n for every integer n |
| PyInt.ParseIntDecimal | services.py:29 | int() of str(n) surrounded by any whitespace int() skips (str.isspace() characters other than U+001C to U+001F) is n |
| PyInt.ParseIntDigits | services.py:29 | plain digits, leading zeros allowed, and the same digits after '-' read as their value and its negation |
| PyInt.ParseIntNumeral | services.py:29 | text int() accepts holds no information separator U+001C to U+001F, and is, once stripped, made of digits, signs and underscores and ends in a digit |
| PyInt.DecimalShape | services.py:29 | str(n) has no surrounding whitespace and is made of digits and a sign |

## Left out

- Date parsing (`_parse_date`, `dateutil.parser.parse`, services.py:14, 50-51) is a foreign library call. The constructor takes the parsed date as a value carrying only its weekday, and a date text it cannot parse is not modelled.
- `calendar.day_abbr` is taken in the default English locale.
- `timedelta` is modelled as an integer number of minutes. Only its day-count limit is modelled; its seconds and microseconds fields are not.
- PyStr.Lower: only the ASCII letters are lower-cased. Python's full Unicode case mapping is not modelled.
- PyInt.ParseInt: `int()` is modelled on ASCII digits, with an optional sign, single underscores between digits and surrounding whitespace; the information separators U+001C to U+001F, which `str.isspace()` accepts but `int()` does not skip, make it fail wherever they occur. Non-ASCII decimal digits and the 4300-digit conversion limit are not modelled.
- DailyLog.rows: `DailyLog.__init__` keeps a reference to the caller's list, so later changes to that list show through; the model stores the rows as a sequence value and does not capture that aliasing, on which nothing in services.py depends.
- Python's exceptions (AttributeError, ValueError, OverflowError) become the values of the `ParseError` datatype; their messages are not modelled.
- The keyword table is a Python dict. Its iteration order is the insertion order of the literal, which the model states as an ordered sequence.
- email_services.py, make_report.py and main.py are not part of this model: they hold environment, file, console and SMTP I/O, a command-line wrapper, and a demo driver.
- The section splitter, continuation merging, durations, persons, priority and break filtering belong to classes that `services.py` does not contain, so they are not part of this model.
