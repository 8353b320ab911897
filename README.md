# Impact logger report tool: a Dafny model

`get_report.py` is the host-side tool for an ESP32 impact data logger. It
talks to the device over a serial port. This project models its decision
logic:

- **The data-dump parser of `after_flight`.** After the dump command is sent,
  the device streams text lines. Each line is stripped. Blank lines are
  skipped. A line containing `End of binary file dump.` ends the dump. The
  first line containing `timestamp_ms` becomes the CSV header. After it, every
  line that is not a `#` comment and splits on `,` into at least six fields
  becomes a data row. The CSV is written only if at least one row was stored.
- **The port choice of `prompt_for_port`.** The answer is stripped. A digit
  string selects the port with that index if there is one. An empty answer
  refreshes the listing. Anything else is reported as invalid.
- **The confirmation gate of `before_flight`.** The erase byte `c` and then
  the pause byte `p` are written only if the first answer lower-cases to `yes`
  and the second upper-cases to `ERASE`.

Modules:

- `Wrappers` (`wrappers.dfy`): `Option`.
- `PyStr` (`pystr.dfy`): the Python string operations the tool relies on.
  These are `str.strip()` with Python's whitespace set, the `in` substring
  test, `startswith`, `split(",")` with its inverse `join`, `lower`/`upper`
  for the characters whose case form is an ASCII letter (every other
  character is kept as it is), and decimal digit strings with `int()`'s
  digit limit.
- `DumpParse` (`dump.dfy`): the parser, in three forms:
  - `Step`, the loop body as a pure function on the loop's variables, with
    `Parse` as its fold over the lines read;
  - `ParseDump`, the loop itself, proved to compute `Parse`;
  - `Expected`, a declarative description (header = first header line before
    the terminator; rows = data lines after it and before the terminator, in
    order), proved equal to `Parse` by `ParseIsExpected`.
- `Prompts` (`prompts.dfy`): the port choice, as written and corrected (see
  Findings), the prompt loop, and the confirmation gate.

The serial line is a parameter. The dump is the sequence of decoded lines the
device sends. If that sequence ends without a terminator line, the loop would
still be reading, and the model reports that as `StillReading`. The port
prompt loop takes the sequence of (listing, answer) rounds it goes through.

## Model

| member | source | states |
|---|---|---|
| PyStr.IsSpace | get_report/get_report.py:86 | the characters Python's `str.isspace()` accepts, which are what `strip()` removes |
| PyStr.StripLeft | get_report/get_report.py:86 | `lstrip()`: drops whitespace from the front while there is any |
| PyStr.StripRight | get_report/get_report.py:86 | `rstrip()`: drops whitespace from the back while there is any |
| PyStr.Strip | get_report/get_report.py:86 | `strip()`, as on lines 27, 41 and 46 too: `rstrip()` after `lstrip()` |
| PyStr.StripLeftSpec | get_report/get_report.py:86 | `lstrip` removes exactly the leading run of whitespace: the result is a suffix, everything dropped is whitespace, and the result does not start with whitespace |
| PyStr.StripRightSpec | get_report/get_report.py:86 | `rstrip` removes exactly the trailing run of whitespace: the result is a prefix, everything dropped is whitespace, and the result does not end with whitespace |
| PyStr.StripIsTrimmedSlice | get_report/get_report.py:86 | `strip()` returns a contiguous slice of the line with only whitespace on either side, and the slice neither starts nor ends with whitespace |
| PyStr.StripEmptyIffAllSpace | get_report/get_report.py:86-88 | a stripped line is empty (and skipped) exactly when the raw line is all whitespace |
| PyStr.StripIdempotent | get_report/get_report.py:86 | stripping twice is stripping once |
| PyStr.Contains | get_report/get_report.py:89-92 | Python's substring test `p in s`: `p` is a prefix of `s` or of one of its suffixes |
| PyStr.StartsWith | get_report/get_report.py:97 | `s.startswith(p)`: `p` is a prefix of `s` |
| PyStr.StartsWithIsOccurrenceAtStart | get_report/get_report.py:97 | `startswith` holds exactly when the line is the prefix followed by something, that is when the prefix occurs at offset 0, and it implies the substring test |
| PyStr.ContainsIff | get_report/get_report.py:89 | the `in` test holds exactly when the marker occurs at some position of the line |
| PyStr.ContainsNoLonger | get_report/get_report.py:89 | a line shorter than the marker never contains it |
| PyStr.Split | get_report/get_report.py:93 | `split(",")` yields one more piece than the line has commas |
| PyStr.SplitPiecesAreSeparatorFree | get_report/get_report.py:100 | no piece of `split(",")` contains a comma |
| PyStr.JoinSplit | get_report/get_report.py:100 | joining the pieces of `split(",")` with commas gives back the line |
| PyStr.SplitJoin | get_report/get_report.py:100 | splitting a comma-join of comma-free pieces gives back the pieces |
| PyStr.SplitSeparatorFree | get_report/get_report.py:100 | a comma-free prefix becomes part of the first piece |
| PyStr.Lower | get_report/get_report.py:41 | `lower()` character by character, for the characters whose lower-case form is an ASCII letter (A–Z and the Kelvin sign); every other character is kept (see Left out) |
| PyStr.Upper | get_report/get_report.py:46 | `upper()` character by character, for the characters whose upper-case form is an ASCII letter (a–z, `ſ` and `ı`); every other character is kept (see Left out) |
| PyStr.IsDecimalChar | get_report/get_report.py:28-29 | the decimal digits that both `isdigit()` and `int()` accept: ASCII plus five further scripts (see Left out) |
| PyStr.DecimalValue | get_report/get_report.py:29 | `int()` of a decimal digit string: most significant digit first, each digit worth its distance from the zero of its script |
| PyStr.DigitValue | get_report/get_report.py:29 | the value of one decimal digit is below ten |
| PyStr.DecimalRoundTrip | get_report/get_report.py:29 | `int(str(n)) == n`, and `str(n)` is a decimal digit string |
| DumpParse.Classify | get_report/get_report.py:87-101 | the tests of the loop body in source order: blank, end marker, header marker with no header yet, no header yet, `#` comment, at least six fields, too short |
| DumpParse.Step | get_report/get_report.py:86-103 | one pass of the loop body on a raw line: strip, classify, then break, bind the header, append the row or skip; a loop that has broken out changes nothing |
| DumpParse.RunFrom | get_report/get_report.py:85-86 | the loop reads the lines one after the other, one `Step` each |
| DumpParse.Parse | get_report/get_report.py:79-81 | the loop started from `header_found = False`, no `headers`, empty `csv_data` and `line_count = 0` |
| DumpParse.Live | get_report/get_report.py:89-91 | the lines before the first line holding the end marker |
| DumpParse.FirstHeader | get_report/get_report.py:92 | the index of the first line holding the header marker; the index is within the lines |
| DumpParse.DataRows | get_report/get_report.py:97-103 | the splits of the lines that pass the comment and field-count tests, in order |
| DumpParse.Expected | get_report/get_report.py:79-107 | the declarative outcome: header = split of the first header line before the terminator, rows = data rows after it and before the terminator, stopped iff a terminator was read |
| DumpParse.ClassifyDecides | get_report/get_report.py:87-101 | blank iff empty; terminator iff the line contains the end marker; header iff no header yet, the header marker is present and the end marker is not; data iff header known, no end marker, not a comment and at least five commas |
| DumpParse.TerminatorBeatsHeader | get_report/get_report.py:89-92 | a line holding both markers ends the dump, whether or not a header is known |
| DumpParse.StepKeepsValid | get_report/get_report.py:86-103 | one line keeps the loop invariant (headers bound iff header found; no rows before the header; line count = number of rows; rows have at least six fields); after the break nothing changes; a blank line changes nothing; a known header is kept; rows are unchanged or gain exactly this line's split |
| DumpParse.StoppedIsFinal | get_report/get_report.py:89-91 | after the break, no further line changes anything |
| DumpParse.RunAppend | get_report/get_report.py:85-86 | reading two batches of lines one after the other is reading them together |
| DumpParse.LiveIsPrefixBeforeTerminator | get_report/get_report.py:89-91 | the lines the loop acts on are the longest prefix without a terminator line, and the line just after that prefix is the terminator |
| DumpParse.FirstHeaderIsFirst | get_report/get_report.py:92-94 | the chosen header index points at a header line, and no earlier line is one; with no header line the result is none |
| DumpParse.StepWhileCollecting | get_report/get_report.py:97-103 | once the header is known, a line that is not a terminator appends its row if it is a data line, and changes nothing else |
| DumpParse.CollectingRun | get_report/get_report.py:97-103 | once the header is known, the loop appends the data rows of the lines before the terminator, in order, and stops exactly when a terminator arrives |
| DumpParse.ParseIsExpected | get_report/get_report.py:79-107 | the loop computes the declarative result: the header is the split of the first header line before the terminator, the rows are the data lines after it and before the terminator, and the loop has stopped exactly when a terminator was read |
| DumpParse.RunKeepsValid | get_report/get_report.py:79-103 | the loop invariant holds whatever lines are read |
| DumpParse.ParseValid | get_report/get_report.py:79-113 | after any input, rows exist only if the header is bound (so the header row written at line 112 exists), line count = number of rows, and every row has at least six fields |
| DumpParse.BlankLineIgnored | get_report/get_report.py:86-88 | inserting a line that strips to empty anywhere in the input leaves the result unchanged |
| DumpParse.TerminatorEndsParse | get_report/get_report.py:89-91 | a terminator line only sets the stopped flag, and nothing after it has any effect |
| DumpParse.HeaderNeverOverwritten | get_report/get_report.py:92-96 | once captured, the header stays found and unchanged whatever lines follow |
| DumpParse.HeaderStays | get_report/get_report.py:92-96 | from a state with a known header, any run keeps that header |
| DumpParse.FirstHeaderOfLive | get_report/get_report.py:89-96 | a line is the first header line before any terminator exactly when it is the declarative first header of the lines the loop acts on |
| DumpParse.HeaderIsFirstCandidate | get_report/get_report.py:89-96 | a header is found iff some header line comes before every terminator, and the stored header is the split of the first such line |
| DumpParse.DataRowsFromDataLines | get_report/get_report.py:97-103 | every declarative data row is the split of a data line of the input |
| DumpParse.StoredRowsAreDataLines | get_report/get_report.py:97-103 | every stored row is the split of a line that is before the terminator, after the first header, not a comment and has at least six fields |
| DumpParse.RowsAfterHeaderAccepted | get_report/get_report.py:97-103 | every data row after the first header and before the terminator comes from an accepted line |
| DumpParse.LineAfterHeaderAccepted | get_report/get_report.py:97-103 | a data line after the first header and before the terminator is accepted |
| DumpParse.RowsAppendedInOrder | get_report/get_report.py:100-103 | one more line appends exactly its split when the loop is running, the header is known and the line is a data line, and otherwise appends nothing; earlier rows are untouched |
| DumpParse.ParseDump | get_report/get_report.py:79-107 | the read loop ends with exactly the state of `Parse`; `completed` tells whether it broke out on the terminator |
| DumpParse.AfterFlight | get_report/get_report.py:109-117 | the CSV is written only if at least one row was stored; it is the header row followed by every stored row, each of at least six fields; the outcome is still reading iff no terminator line was read; the no-data message means no row was stored |
| DumpParse.CsvHeaderIsFirstHeaderLine | get_report/get_report.py:92-93 | the header row of a written CSV is the split of the first header line before the terminator |
| Prompts.IsDigitString | get_report/get_report.py:28 | `isdigit()`: non-empty, and every character a decimal digit or one of the modelled non-decimal digits (superscript, subscript, circled) |
| Prompts.ChoosePortAsWritten | get_report/get_report.py:27-37 | the answer check as written: a digit string is passed to `int()`, which crashes unless every digit is decimal and there are at most 4300 of them, and selects the port with that index if there is one; an empty answer refreshes; anything else is invalid |
| Prompts.AsWrittenCrashesOnNonDecimalDigits | get_report/get_report.py:27-33 | as written, the prompt raises an uncaught error exactly on digit strings holding a modelled non-decimal digit, e.g. "²", or longer than 4300 digits |
| Prompts.AsWrittenCrashesOnLongNumbers | get_report/get_report.py:28-31 | as written, 4300 zeros followed by "1" crash the prompt although they denote a listed index; the corrected check reports them as invalid |
| Prompts.AsWrittenReadsOtherScripts | get_report/get_report.py:28-31 | as written, a decimal digit of another script selects by its value: with four ports, fullwidth "３" and Arabic-Indic "٣" select the fourth |
| Prompts.ChoosePort | get_report/get_report.py:27-37 | the corrected check never crashes; it selects iff the stripped answer is a decimal number of at most 4300 digits below the number of ports, and then returns that port's device; it refreshes iff the stripped answer is empty |
| Prompts.CorrectionOnlyRemovesCrash | get_report/get_report.py:28-29 | the corrected check agrees with the code as written on every answer that does not crash, and reports the crashing answers (a non-decimal digit, or more than 4300 digits) as invalid |
| Prompts.EveryListedPortSelectable | get_report/get_report.py:23-33 | typing the index printed next to a port selects that port's device (every index that `str()` can print, i.e. of at most 4300 digits) |
| Prompts.PromptForPort | get_report/get_report.py:14-37 | the prompt loop returns a device iff some round selects one, and then returns the device of the first round that does |
| Prompts.LowerIsYes | get_report/get_report.py:41-42 | the first answer passes iff, once stripped, it spells `yes` in any mix of cases |
| Prompts.UpperIsErase | get_report/get_report.py:46-47 | the second answer passes iff, once stripped, it spells `ERASE` in any mix of cases, with `ſ` counting as `S` |
| Prompts.BeforeFlight | get_report/get_report.py:41-49 | the gate: cancel unless the stripped, lower-cased first answer is `yes`; fail unless the stripped, upper-cased second answer is `ERASE`; otherwise prepare |
| Prompts.CommandsSent | get_report/get_report.py:55-58 | a prepared device receives `c` then `p`; otherwise nothing is written |
| Prompts.EraseNeedsBothConfirmations | get_report/get_report.py:41-58 | the bytes `c` then `p` are written iff both answers pass, and nothing is written otherwise; a first answer other than `yes` cancels before the second question |

## Left out

- Serial transport: opening the port at 115200 baud with a 5-second timeout, the two-second sleeps, and writing `b`, `c` and `p` (lines 52-58 and 74-77). The dump is the sequence of decoded lines; the gate reports the bytes it would write.
- UTF-8 decoding with `errors='ignore'` (line 86): lines are modelled after decoding.
- The end of the read loop without a terminator: the source keeps reading forever, and a read timeout yields an empty line, which is skipped. A finite input without a terminator is reported as `StillReading`. No timeout failure exists in this code.
- The progress spinner and every message printed (lines 105-107 and elsewhere): output only.
- Writing the CSV file and its timestamped name (lines 71-72 and 109-114): `AfterFlight` returns the records that would be written.
- Exception handlers (lines 65-68 and 118-123): they only print; serial errors are not modelled.
- Clearing the screen, enumerating ports, the menu in `main`, and the help text after flight preparation: I/O only. The port listing is a parameter of each prompt round.
- The delete command `d` is not used by this revision of the program.
- Prompts.AsWrittenCrashesOnNonDecimalDigits: only the superscript, subscript and circled digits are modelled as digits that `int()` rejects. Other characters with `isdigit()` true (Ethiopic or Kharoshthi digits, for instance) would crash the same way, but the model treats them as invalid answers.
- Prompts.CorrectionOnlyRemovesCrash: the agreement with the code as written covers the modelled digit sets only. On an answer holding a digit outside them, the program either crashes (a non-decimal digit) or reads a number (a decimal digit of a script not modelled), while both model checks answer invalid.
- Prompts.ChoosePort: the decimal digits modelled are ASCII, Arabic-Indic, extended Arabic-Indic, Devanagari, Bengali and fullwidth. Python's `int()` also accepts the decimal digits of every other script, and the model treats those as invalid answers.
- PyStr.Lower: only the characters whose lower-case form is an ASCII letter are mapped (A–Z and the Kelvin sign). Every other character is kept unchanged, both Python's one-for-one mappings (`À` becomes `à`, `Σ` becomes `σ`) and its expansions (`İ` becomes `i` plus a combining dot). The comparison with `yes` has the same outcome either way: a kept character is not y, e or s, whereas its Python lower-case form is a non-ASCII letter or holds a combining dot, neither of which `yes` contains.
- PyStr.Upper: only the characters whose upper-case form is an ASCII letter are mapped (a–z, `ſ` and `ı`). Every other character is kept unchanged, both Python's one-for-one mappings (`é` becomes `É`) and its expansions (`ß` becomes `SS`, `ﬁ` becomes `FI`). The comparison with `ERASE` has the same outcome either way: a kept character is not an ASCII letter, whereas its Python upper-case form is a non-ASCII letter, or an expansion holding a letter other than E, R, A and S or a doubled S.
- Prompts.PromptForPort: it uses the corrected choice check, not the crashing one.
- Prompts.ChoosePortAsWritten: the digit limit of `int()` is modelled at its default of 4300 (CPython 3.11 on, and the 3.7.14, 3.8.14, 3.9.14 and 3.10.7 security releases). A Python without the limit, or one where it was changed with `sys.set_int_max_str_digits` or `PYTHONINTMAXSTRDIGITS`, reads longer digit strings as numbers instead of crashing. It also inherits the digit-set gaps of `PyStr.IsDecimalChar` and `Prompts.IsDigitString`: on an answer holding any other digit, the program selects a port (a decimal digit such as the Thai `๓`, which with four ports returns the fourth) or crashes (a non-decimal digit such as `⓪`), while the model answers invalid.
- PyStr.IsDecimalChar: only the ASCII digits and five blocks of Unicode decimal digits (Arabic-Indic, extended Arabic-Indic, Devanagari, Bengali, fullwidth) count as decimal. Python's `isdecimal()` and `int()` accept every decimal digit of every script (Thai, Tibetan, Myanmar and many more), and the model does not.
- Prompts.IsDigitString: only the superscript, subscript and circled one-to-nine digits count as the non-decimal characters `isdigit()` accepts. Python's `isdigit()` also accepts others, such as the circled zero `⓪`, the dingbat circled digits, the parenthesized and full-stop digits, and the Ethiopic and Kharoshthi digits; the model does not count them as digits.

## Findings

| source | as written | input that shows it | evidently intended | confidence | as-written member | corrected member |
|---|---|---|---|---|---|---|
| get_report/get_report.py:28-29 | `choice.isdigit()` guards `int(choice)`, but `isdigit()` also accepts superscript, subscript and circled digits, which `int()` rejects with a `ValueError` that nothing catches | the answer `²` at the port prompt | only decimal digit strings are read as a port number; anything else is an invalid selection | not executed | Prompts.AsWrittenCrashesOnNonDecimalDigits | Prompts.ChoosePort |
| get_report/get_report.py:28-29 | `isdigit()` places no bound on the length, but `int()` raises `ValueError` on more than 4300 digits, and nothing catches it | the answer of 4300 zeros followed by `1`, with two ports listed | an answer `int()` cannot convert is an invalid selection | not executed | Prompts.AsWrittenCrashesOnLongNumbers | Prompts.ChoosePort |
