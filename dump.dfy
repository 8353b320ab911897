/**
 * The data-dump parser of `after_flight`: after the dump command has been sent,
 * the device streams text lines; each line is stripped and classified, the
 * first line naming the `timestamp_ms` column becomes the CSV header, every
 * later comma-separated line with at least six fields becomes a data row, and
 * the line "End of binary file dump." ends the dump.
 *
 * The per-line rule is the pure function `Step` over a `DumpState` (the loop's
 * local variables plus whether the loop has left); `Parse` folds it over the
 * lines read. `ParseDump` is the loop itself, proved to compute `Parse`, and
 * `Expected` describes the outcome declaratively (header = first header line
 * before the terminator, rows = accepted lines between them, in order), with
 * `ParseIsExpected` proving the two agree.
 */
module DumpParse {
  import opened Wrappers
  import opened PyStr

  /** Substring that ends the dump, wherever it appears in a line. */
  const EndMarker: string := "End of binary file dump."
  /** Substring that identifies the header line. */
  const HeaderMarker: string := "timestamp_ms"
  /** Prefix of the annotation lines the firmware interleaves with the data. */
  const CommentPrefix: string := "#"
  /** Fewest fields a line needs to be kept as a data row. */
  const MinFields: nat := 6

  /** How one stripped line is handled, given whether the header is known. */
  datatype LineTag = Blank | Terminator | Header | BeforeHeader | Comment | Data | TooShort

  /** The checks of the loop body, in the order the loop makes them. */
  function Classify(line: string, headerFound: bool): LineTag {
    if line == [] then Blank
    else if Contains(line, EndMarker) then Terminator
    else if Contains(line, HeaderMarker) && !headerFound then Header
    else if !headerFound then BeforeHeader
    else if StartsWith(line, CommentPrefix) then Comment
    else if |Split(line, ',')| >= MinFields then Data
    else TooShort
  }

  /**
   * What each tag means, whatever the order of the checks: a terminator wins
   * over a header line, a header line only counts while no header is known,
   * and a data line is a non-comment line with at least five commas seen
   * after the header.
   */
  lemma ClassifyDecides(line: string, headerFound: bool)
    ensures Classify(line, headerFound) == Blank <==> line == []
    ensures Classify(line, headerFound) == Terminator <==> Contains(line, EndMarker)
    ensures Classify(line, headerFound) == Header <==>
      !headerFound && Contains(line, HeaderMarker) && !Contains(line, EndMarker)
    ensures Classify(line, headerFound) == Data <==>
      headerFound && !Contains(line, EndMarker) && !StartsWith(line, CommentPrefix) && Count(line, ',') >= MinFields - 1
  {
  }

  /**
   * The loop's variables: `header_found`, `headers` (unbound until the header
   * line, hence an `Option`), `csv_data`, `line_count`, and whether the loop
   * has broken out on the terminator.
   */
  datatype DumpState = DumpState(
    headerFound: bool,
    headers: Option<seq<string>>,
    csvData: seq<seq<string>>,
    lineCount: nat,
    stopped: bool)

  /** The state before the first line is read. */
  const Initial: DumpState := DumpState(false, None, [], 0, false)

  /**
   * What the loop keeps true: `headers` is bound exactly when `header_found`
   * is set, no row is stored before the header, `line_count` counts the rows,
   * and every row has at least `MinFields` fields.
   */
  predicate Valid(s: DumpState) {
    && (s.headerFound <==> s.headers.Some?)
    && (s.csvData != [] ==> s.headerFound)
    && s.lineCount == |s.csvData|
    && forall k :: 0 <= k < |s.csvData| ==> |s.csvData[k]| >= MinFields
  }

  /** One pass of the loop body on the raw (decoded, not yet stripped) line `raw`. */
  function Step(s: DumpState, raw: string): DumpState {
    if s.stopped then s
    else
      var line := Strip(raw);
      match Classify(line, s.headerFound)
      case Blank => s
      case Terminator => s.(stopped := true)
      case Header => s.(headerFound := true, headers := Some(Split(line, ',')))
      case BeforeHeader => s
      case Comment => s
      case Data => s.(csvData := s.csvData + [Split(line, ',')], lineCount := s.lineCount + 1)
      case TooShort => s
  }

  /**
   * One line keeps the loop's invariant, leaves a stopped loop and a blank
   * line without effect, never rebinds a known header, and either leaves the
   * rows alone or appends the line's split.
   */
  lemma StepKeepsValid(s: DumpState, raw: string)
    ensures Valid(s) ==> Valid(Step(s, raw))
    ensures s.stopped ==> Step(s, raw) == s
    ensures Strip(raw) == [] ==> Step(s, raw) == s
    ensures s.headerFound ==> Step(s, raw).headerFound && Step(s, raw).headers == s.headers
    ensures Step(s, raw).csvData == s.csvData || Step(s, raw).csvData == s.csvData + [Split(Strip(raw), ',')]
  {
    var r := Step(s, raw);
    if Valid(s) && !s.stopped && Classify(Strip(raw), s.headerFound) == Data {
      forall k | 0 <= k < |r.csvData| ensures |r.csvData[k]| >= MinFields {
        if k < |s.csvData| {
          assert r.csvData[k] == s.csvData[k];
        }
      }
    }
  }

  /** The loop run from state `s` over `lines`, one `Step` per line. */
  function RunFrom(s: DumpState, lines: seq<string>): DumpState
    decreases |lines|
  {
    if lines == [] then s else RunFrom(Step(s, lines[0]), lines[1..])
  }

  /** The loop's state once it has consumed `lines` (or broken out on the terminator). */
  function Parse(lines: seq<string>): DumpState {
    RunFrom(Initial, lines)
  }

  // ---------------------------------------------------------------------------
  // The declarative description of a dump.

  predicate IsTerminatorLine(raw: string) {
    Contains(Strip(raw), EndMarker)
  }

  predicate IsHeaderLine(raw: string) {
    Contains(Strip(raw), HeaderMarker)
  }

  /** A line that, once the header is known, is stored as a data row. */
  predicate IsDataLine(raw: string) {
    !StartsWith(Strip(raw), CommentPrefix) && |Split(Strip(raw), ',')| >= MinFields
  }

  /** The lines before the first terminator line. */
  function Live(lines: seq<string>): seq<string> {
    if lines == [] then []
    else if IsTerminatorLine(lines[0]) then []
    else [lines[0]] + Live(lines[1..])
  }

  /** `Live(lines)` is the longest prefix of `lines` without a terminator line. */
  lemma {:induction false} LiveIsPrefixBeforeTerminator(lines: seq<string>)
    ensures |Live(lines)| <= |lines| && Live(lines) == lines[..|Live(lines)|]
    ensures forall i :: 0 <= i < |Live(lines)| ==> !IsTerminatorLine(lines[i])
    ensures |Live(lines)| < |lines| ==> IsTerminatorLine(lines[|Live(lines)|])
  {
    if lines != [] && !IsTerminatorLine(lines[0]) {
      LiveIsPrefixBeforeTerminator(lines[1..]);
      forall i | 0 <= i < |Live(lines)| ensures !IsTerminatorLine(lines[i]) {
        if i > 0 {
          assert lines[i] == lines[1..][i - 1];
        }
      }
    }
  }

  /** The index of the first header line of `lines`, if any. */
  function FirstHeader(lines: seq<string>): (r: Option<nat>)
    ensures r.Some? ==> r.value < |lines|
  {
    if lines == [] then None
    else if IsHeaderLine(lines[0]) then Some(0)
    else match FirstHeader(lines[1..])
      case None => None
      case Some(k) => Some(k + 1)
  }

  /** `FirstHeader` finds the first header line, and none when there is none. */
  lemma {:induction false} FirstHeaderIsFirst(lines: seq<string>)
    ensures FirstHeader(lines).Some? ==> IsHeaderLine(lines[FirstHeader(lines).value])
    ensures FirstHeader(lines).Some? ==> forall j :: 0 <= j < FirstHeader(lines).value ==> !IsHeaderLine(lines[j])
    ensures FirstHeader(lines).None? ==> forall j :: 0 <= j < |lines| ==> !IsHeaderLine(lines[j])
  {
    if lines != [] && !IsHeaderLine(lines[0]) {
      FirstHeaderIsFirst(lines[1..]);
      forall j | 0 < j < |lines| ensures lines[j] == lines[1..][j - 1] { }
    }
  }

  /** The row a line contributes once the header is known: its split if it is a data line. */
  function RowOf(raw: string): seq<seq<string>> {
    if IsDataLine(raw) then [Split(Strip(raw), ',')] else []
  }

  /** The split of every data line of `lines`, in order. */
  function DataRows(lines: seq<string>): seq<seq<string>> {
    if lines == [] then [] else RowOf(lines[0]) + DataRows(lines[1..])
  }

  /**
   * The outcome of a dump: the header is the split of the first header line
   * before the terminator, the rows are the data lines after it and before the
   * terminator, and the parse has stopped exactly when a terminator was read.
   */
  function Expected(lines: seq<string>): DumpState {
    var live := Live(lines);
    var stopped := |live| < |lines|;
    match FirstHeader(live)
    case None => DumpState(false, None, [], 0, stopped)
    case Some(k) =>
      var rows := DataRows(live[k + 1..]);
      DumpState(true, Some(Split(Strip(live[k]), ',')), rows, |rows|, stopped)
  }

  // ---------------------------------------------------------------------------
  // The fold and the declarative description agree.

  /** After the terminator the loop has left: no further line changes anything. */
  lemma {:induction false} StoppedIsFinal(s: DumpState, lines: seq<string>)
    decreases |lines|
    requires s.stopped
    ensures RunFrom(s, lines) == s
  {
    if lines != [] {
      StoppedIsFinal(Step(s, lines[0]), lines[1..]);
    }
  }

  /** Reading `xs` then `ys` is reading `xs + ys`. */
  lemma {:induction false} RunAppend(s: DumpState, xs: seq<string>, ys: seq<string>)
    decreases |xs|
    ensures RunFrom(s, xs + ys) == RunFrom(RunFrom(s, xs), ys)
  {
    if xs == [] {
      assert xs + ys == ys;
    } else {
      assert (xs + ys)[1..] == xs[1..] + ys;
      RunAppend(Step(s, xs[0]), xs[1..], ys);
    }
  }

  /** The loop is past the header and still reading. */
  predicate Collecting(s: DumpState) {
    s.headerFound && !s.stopped
  }

  /** Once the header is known, a line other than a terminator contributes its row, if any. */
  lemma StepWhileCollecting(s: DumpState, raw: string)
    requires Collecting(s) && !IsTerminatorLine(raw)
    ensures Step(s, raw) == s.(csvData := s.csvData + RowOf(raw), lineCount := s.lineCount + |RowOf(raw)|)
  {
    if !IsDataLine(raw) {
      assert s.csvData + [] == s.csvData;
    }
  }

  /** What the loop holds once it has read `lines` from `s` past the header. */
  function Collected(s: DumpState, lines: seq<string>): DumpState {
    var rows := DataRows(Live(lines));
    s.(csvData := s.csvData + rows, lineCount := s.lineCount + |rows|, stopped := |Live(lines)| < |lines|)
  }

  /** Once the header is known, the loop appends the data rows of the live lines and nothing else. */
  lemma {:induction false} CollectingRun(s: DumpState, lines: seq<string>)
    decreases |lines|
    requires Collecting(s)
    ensures RunFrom(s, lines) == Collected(s, lines)
  {
    if lines == [] {
      assert s.csvData + [] == s.csvData;
    } else if IsTerminatorLine(lines[0]) {
      assert s.csvData + [] == s.csvData;
      StoppedIsFinal(Step(s, lines[0]), lines[1..]);
    } else {
      StepWhileCollecting(s, lines[0]);
      CollectingRun(Step(s, lines[0]), lines[1..]);
      CollectedCons(s, lines[0], lines[1..]);
      assert [lines[0]] + lines[1..] == lines;
    }
  }

  /** Appending the row of a line other than a terminator, then collecting the rest, collects all lines. */
  lemma CollectedCons(s: DumpState, x: string, xs: seq<string>)
    requires !IsTerminatorLine(x)
    ensures Collected(s.(csvData := s.csvData + RowOf(x), lineCount := s.lineCount + |RowOf(x)|), xs)
         == Collected(s, [x] + xs)
  {
    var row, rest := RowOf(x), DataRows(Live(xs));
    LiveRowsCons(x, xs);
    assert (s.csvData + row) + rest == s.csvData + (row + rest);
  }

  /** The live lines and their data rows, when the first line is not a terminator. */
  lemma LiveRowsCons(x: string, xs: seq<string>)
    requires !IsTerminatorLine(x)
    ensures Live([x] + xs) == [x] + Live(xs)
    ensures DataRows(Live([x] + xs)) == RowOf(x) + DataRows(Live(xs))
  {
    assert ([x] + xs)[1..] == xs;
    assert ([x] + Live(xs))[1..] == Live(xs);
  }

  /** The loop computes exactly the declarative description of the dump. */
  lemma {:induction false} ParseIsExpected(lines: seq<string>)
    ensures Parse(lines) == Expected(lines)
  {
    if lines == [] {
    } else if IsTerminatorLine(lines[0]) {
      StoppedIsFinal(Step(Initial, lines[0]), lines[1..]);
    } else if IsHeaderLine(lines[0]) {
      var h := Step(Initial, lines[0]);
      assert h == Initial.(headerFound := true, headers := Some(Split(Strip(lines[0]), ',')));
      CollectingRun(h, lines[1..]);
      var live := Live(lines);
      assert FirstHeader(live) == Some(0);
      assert live[1..] == Live(lines[1..]);
      assert [] + DataRows(live[1..]) == DataRows(live[1..]);
    } else {
      assert Step(Initial, lines[0]) == Initial;
      ParseIsExpected(lines[1..]);
      var live := Live(lines);
      var live' := Live(lines[1..]);
      assert live[1..] == live';
      match FirstHeader(live')
      case None =>
      case Some(k) =>
        assert FirstHeader(live) == Some(k + 1);
        assert live[k + 2..] == live'[k + 1..];
    }
  }

  // ---------------------------------------------------------------------------
  // Properties of the parser.

  /** The loop's invariant holds whatever lines are read. */
  lemma {:induction false} RunKeepsValid(s: DumpState, lines: seq<string>)
    decreases |lines|
    requires Valid(s)
    ensures Valid(RunFrom(s, lines))
  {
    if lines != [] {
      StepKeepsValid(s, lines[0]);
      RunKeepsValid(Step(s, lines[0]), lines[1..]);
    }
  }

  /**
   * Rows are only ever stored once the header is bound (so the header row the
   * CSV writer needs exists), `line_count` equals the number of rows, and
   * every row has at least six fields.
   */
  lemma ParseValid(lines: seq<string>)
    ensures Valid(Parse(lines))
    ensures Parse(lines).csvData != [] ==> Parse(lines).headers.Some?
  {
    RunKeepsValid(Initial, lines);
  }

  /** A line that is empty once stripped has no effect, wherever it appears. */
  lemma BlankLineIgnored(xs: seq<string>, x: string, ys: seq<string>)
    requires Strip(x) == []
    ensures Parse(xs + [x] + ys) == Parse(xs + ys)
  {
    RunAppend(Initial, xs + [x], ys);
    RunAppend(Initial, xs, [x]);
    RunAppend(Initial, xs, ys);
  }

  /**
   * A terminator line ends the parse: the lines after it have no effect, and
   * it changes nothing but the stopped flag, whether or not a header was seen.
   */
  lemma TerminatorEndsParse(xs: seq<string>, x: string, ys: seq<string>)
    requires IsTerminatorLine(x)
    ensures Parse(xs + [x] + ys) == Parse(xs).(stopped := true)
  {
    var s := Parse(xs);
    RunAppend(Initial, xs + [x], ys);
    RunAppend(Initial, xs, [x]);
    if s.stopped {
      assert s.(stopped := true) == s;
    }
    StoppedIsFinal(Parse(xs + [x]), ys);
  }

  /** A line holding both markers is a terminator, with or without a header. */
  lemma TerminatorBeatsHeader(line: string, headerFound: bool)
    requires Contains(line, EndMarker) && Contains(line, HeaderMarker)
    ensures Classify(line, headerFound) == Terminator
  {
  }

  /** Once captured, the header is never overwritten by later lines. */
  lemma HeaderNeverOverwritten(xs: seq<string>, ys: seq<string>)
    requires Parse(xs).headerFound
    ensures Parse(xs + ys).headerFound && Parse(xs + ys).headers == Parse(xs).headers
  {
    RunAppend(Initial, xs, ys);
    HeaderStays(Parse(xs), ys);
  }

  lemma {:induction false} HeaderStays(s: DumpState, lines: seq<string>)
    decreases |lines|
    requires s.headerFound
    ensures RunFrom(s, lines).headerFound && RunFrom(s, lines).headers == s.headers
  {
    if lines != [] {
      StepKeepsValid(s, lines[0]);
      HeaderStays(Step(s, lines[0]), lines[1..]);
    }
  }

  /** `lines[k]` is the first header line and no terminator comes before or at it. */
  predicate IsFirstHeader(lines: seq<string>, k: int) {
    && 0 <= k < |lines|
    && IsHeaderLine(lines[k])
    && (forall j :: 0 <= j <= k ==> !IsTerminatorLine(lines[j]))
    && (forall j :: 0 <= j < k ==> !IsHeaderLine(lines[j]))
  }

  /** `IsFirstHeader` and the declarative `FirstHeader` of the live lines pick the same line. */
  lemma FirstHeaderOfLive(lines: seq<string>, k: int)
    ensures IsFirstHeader(lines, k) <==> FirstHeader(Live(lines)) == Some(k)
  {
    var live := Live(lines);
    LiveIsPrefixBeforeTerminator(lines);
    FirstHeaderIsFirst(live);
    if FirstHeader(live) == Some(k) || IsFirstHeader(lines, k) {
      assert k < |live|;
      assert live[k] == lines[k];
      assert forall j :: 0 <= j < k ==> live[j] == lines[j];
    }
  }

  /**
   * The header is found exactly when some header line precedes every
   * terminator, and it is then the split of the first such line.
   */
  lemma HeaderIsFirstCandidate(lines: seq<string>)
    ensures Parse(lines).headerFound <==> exists k :: IsFirstHeader(lines, k)
    ensures forall k :: IsFirstHeader(lines, k) ==> Parse(lines).headers == Some(Split(Strip(lines[k]), ','))
  {
    ParseIsExpected(lines);
    forall k ensures IsFirstHeader(lines, k) <==> FirstHeader(Live(lines)) == Some(k) {
      FirstHeaderOfLive(lines, k);
    }
    match FirstHeader(Live(lines))
    case None =>
    case Some(k) =>
      LiveIsPrefixBeforeTerminator(lines);
      assert Live(lines)[k] == lines[k];
  }

  /** Every element of `DataRows(lines)` is the split of a data line of `lines`. */
  lemma {:induction false} DataRowsFromDataLines(lines: seq<string>)
    ensures forall r :: r in DataRows(lines) ==>
      exists i :: 0 <= i < |lines| && IsDataLine(lines[i]) && r == Split(Strip(lines[i]), ',')
  {
    if lines != [] {
      DataRowsFromDataLines(lines[1..]);
      forall r | r in DataRows(lines)
        ensures exists i :: 0 <= i < |lines| && IsDataLine(lines[i]) && r == Split(Strip(lines[i]), ',')
      {
        if IsDataLine(lines[0]) && r == Split(Strip(lines[0]), ',') {
        } else {
          assert r in DataRows(lines[1..]);
          var i :| 0 <= i < |lines[1..]| && IsDataLine(lines[1..][i]) && r == Split(Strip(lines[1..][i]), ',');
          assert lines[1..][i] == lines[i + 1];
        }
      }
    }
  }

  /**
   * `lines[i]` is stored as a row: a data line that comes before the first
   * terminator line (`LiveIsPrefixBeforeTerminator`) and after the first
   * header line (`FirstHeaderIsFirst`).
   */
  predicate IsAcceptedLine(lines: seq<string>, i: int) {
    var live := Live(lines);
    && 0 <= i < |lines| && i < |live|
    && IsDataLine(lines[i])
    && FirstHeader(live).Some? && FirstHeader(live).value < i
  }

  /** `r` is the comma split of an accepted line of `lines`. */
  predicate FromAcceptedLine(lines: seq<string>, r: seq<string>) {
    exists i :: 0 <= i < |lines| && IsAcceptedLine(lines, i) && r == Split(Strip(lines[i]), ',')
  }

  /**
   * Every stored row is the comma split of an accepted input line; in
   * particular it did not start with "#" and has at least six fields.
   */
  lemma StoredRowsAreDataLines(lines: seq<string>)
    ensures forall r :: r in Parse(lines).csvData ==> FromAcceptedLine(lines, r)
  {
    ParseIsExpected(lines);
    match FirstHeader(Live(lines))
    case None =>
      assert Parse(lines).csvData == [];
    case Some(k) =>
      assert Parse(lines).csvData == DataRows(Live(lines)[k + 1..]);
      RowsAfterHeaderAccepted(lines, k);
  }

  /** The data rows of the live lines after the first header come from accepted lines. */
  lemma RowsAfterHeaderAccepted(lines: seq<string>, k: nat)
    requires FirstHeader(Live(lines)) == Some(k)
    ensures forall r :: r in DataRows(Live(lines)[k + 1..]) ==> FromAcceptedLine(lines, r)
  {
    var tail := Live(lines)[k + 1..];
    DataRowsFromDataLines(tail);
    forall r | r in DataRows(tail) ensures FromAcceptedLine(lines, r)
    {
      var i :| 0 <= i < |tail| && IsDataLine(tail[i]) && r == Split(Strip(tail[i]), ',');
      LineAfterHeaderAccepted(lines, k, i);
    }
  }

  /** A data line among the live lines after the first header is accepted. */
  lemma LineAfterHeaderAccepted(lines: seq<string>, k: nat, i: nat)
    requires FirstHeader(Live(lines)) == Some(k)
    requires k + 1 + i < |Live(lines)| && IsDataLine(Live(lines)[k + 1 + i])
    ensures IsAcceptedLine(lines, k + 1 + i)
    ensures Live(lines)[k + 1..][i] == lines[k + 1 + i]
  {
    LiveIsPrefixBeforeTerminator(lines);
    assert Live(lines)[k + 1 + i] == lines[k + 1 + i];
  }

  /**
   * Reading one more line appends at most one row, and exactly the split of
   * that line when the loop is running, the header is known, and the line is
   * a data line; the rows already stored are untouched.
   */
  lemma RowsAppendedInOrder(xs: seq<string>, x: string)
    ensures Parse(xs + [x]).csvData == Parse(xs).csvData +
      (if !Parse(xs).stopped && Parse(xs).headerFound && !IsTerminatorLine(x) && IsDataLine(x)
       then [Split(Strip(x), ',')] else [])
  {
    RunAppend(Initial, xs, [x]);
    var s := Parse(xs);
    if !(!s.stopped && s.headerFound && !IsTerminatorLine(x) && IsDataLine(x)) {
      assert s.csvData + [] == s.csvData;
      if !s.stopped && s.headerFound && !IsTerminatorLine(x) && Strip(x) != [] {
        assert Classify(Strip(x), true) != Data;
      }
    }
  }

  // ---------------------------------------------------------------------------
  // The loop of `after_flight` and what it leads to.

  /**
   * The read loop over the lines the device sends, with the loop's own
   * variables; `completed` tells whether it broke out on the terminator.
   */
  method ParseDump(lines: seq<string>)
    returns (headerFound: bool, headers: Option<seq<string>>, csvData: seq<seq<string>>,
             lineCount: nat, completed: bool)
    ensures DumpState(headerFound, headers, csvData, lineCount, completed) == Parse(lines)
  {
    headerFound, headers, csvData, lineCount, completed := false, None, [], 0, false;
    var i := 0;
    while i < |lines|
      invariant 0 <= i <= |lines|
      invariant RunFrom(DumpState(headerFound, headers, csvData, lineCount, false), lines[i..]) == Parse(lines)
    {
      ghost var before := DumpState(headerFound, headers, csvData, lineCount, false);
      assert lines[i..][1..] == lines[i + 1..];
      var line := Strip(lines[i]);
      i := i + 1;
      if line == [] {
        continue;
      }
      if Contains(line, EndMarker) {
        completed := true;
        StoppedIsFinal(Step(before, lines[i - 1]), lines[i..]);
        break;
      }
      if Contains(line, HeaderMarker) && !headerFound {
        headers := Some(Split(line, ','));
        headerFound := true;
        continue;
      }
      if !headerFound || StartsWith(line, CommentPrefix) {
        continue;
      }
      var values := Split(line, ',');
      if |values| >= MinFields {
        csvData := csvData + [values];
        lineCount := lineCount + 1;
      }
    }
  }

  /** What `after_flight` does once the loop ends. */
  datatype Report =
    | CsvWritten(records: seq<seq<string>>)  // header row, then the data rows
    | NoData                                  // terminator seen, no row stored
    | StillReading                            // no terminator yet: the loop would keep reading

  /**
   * The outcome of a dump: the CSV holds the header row and then every stored
   * row, and is written only when at least one row was stored.
   */
  function AfterFlight(lines: seq<string>): (r: Report)
    ensures r.CsvWritten? ==> |r.records| >= 2 && r.records[1..] == Parse(lines).csvData
    ensures r.CsvWritten? ==> forall k :: 1 <= k < |r.records| ==> |r.records[k]| >= MinFields
    ensures r.StillReading? <==> forall i :: 0 <= i < |lines| ==> !IsTerminatorLine(lines[i])
    ensures r.NoData? ==> Parse(lines).csvData == []
  {
    var d := Parse(lines);
    ParseValid(lines);
    ParseIsExpected(lines);
    LiveIsPrefixBeforeTerminator(lines);
    if !d.stopped then StillReading
    else if d.csvData != [] then CsvWritten([d.headers.value] + d.csvData)
    else NoData
  }

  /** The header row of a written CSV is the split of the first header line. */
  lemma CsvHeaderIsFirstHeaderLine(lines: seq<string>)
    requires AfterFlight(lines).CsvWritten?
    ensures exists k :: IsFirstHeader(lines, k) && AfterFlight(lines).records[0] == Split(Strip(lines[k]), ',')
  {
    ParseValid(lines);
    HeaderIsFirstCandidate(lines);
  }
}
