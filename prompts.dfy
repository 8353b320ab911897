/**
 * The two console gates in front of the serial commands: choosing a port by
 * its number in the listing (`prompt_for_port`), and the two-step
 * confirmation that must be passed before the erase and pause commands are
 * written to the device (`before_flight`).
 */
module Prompts {
  import opened Wrappers
  import opened PyStr

  /** One entry of the port listing: device path and description. */
  datatype Port = Port(device: string, description: string)

  /** What one answer to the port prompt leads to. */
  datatype Choice =
    | Selected(device: string)  // the function returns this device
    | OutOfRange                // a number with no port: the prompt is shown again, silently
    | Refresh                   // an empty answer: the listing is refreshed
    | Invalid                   // anything else: "Invalid selection", and the prompt again
    | Crash                     // `int(choice)` raises ValueError, which nothing catches

  /**
   * Characters for which Python's `str.isdigit()` holds although they are not
   * decimal digits, so that `int()` rejects them: the superscript and
   * subscript digits and the circled digits one to nine (a subset of all
   * such characters).
   */
  predicate IsNonDecimalDigit(c: char) {
    || c == '\U{B2}' || c == '\U{B3}' || c == '\U{B9}'
    || c == '\U{2070}' || '\U{2074}' <= c <= '\U{2079}'
    || '\U{2080}' <= c <= '\U{2089}'
    || '\U{2460}' <= c <= '\U{2468}'
  }

  /** Python's `str.isdigit()`: non-empty, and every character a digit of some kind. */
  predicate IsDigitString(s: string) {
    |s| > 0 && forall i :: 0 <= i < |s| ==> IsDecimalChar(s[i]) || IsNonDecimalDigit(s[i])
  }

  /**
   * The answer check of `prompt_for_port` as written: `isdigit()` guards
   * `int()`, which raises on a digit that is not decimal and on more than
   * `MaxStrDigits` digits.
   */
  function ChoosePortAsWritten(ports: seq<Port>, answer: string): Choice {
    var choice := Strip(answer);
    if IsDigitString(choice) then
      if IsDecimal(choice) && |choice| <= MaxStrDigits then
        var idx := DecimalValue(choice);
        if idx < |ports| then Selected(ports[idx].device) else OutOfRange
      else Crash
    else if choice == [] then Refresh
    else Invalid
  }

  /**
   * As written, the prompt crashes exactly on digit strings that hold a digit
   * that is not decimal (superscript, subscript or circled), for instance "²",
   * or that are longer than `MaxStrDigits`, for instance 4300 zeros and a one.
   */
  lemma AsWrittenCrashesOnNonDecimalDigits(ports: seq<Port>, answer: string)
    ensures ChoosePortAsWritten(ports, answer) == Crash <==>
      IsDigitString(Strip(answer)) &&
      (|Strip(answer)| > MaxStrDigits || exists i :: 0 <= i < |Strip(answer)| && IsNonDecimalDigit(Strip(answer)[i]))
    ensures ChoosePortAsWritten(ports, "\U{B2}") == Crash
  {
    var choice := Strip(answer);
    if IsDigitString(choice) && !IsDecimal(choice) {
      var i :| 0 <= i < |choice| && !IsDecimalChar(choice[i]);
      assert IsNonDecimalDigit(choice[i]);
    }
    assert StripLeft("\U{B2}") == "\U{B2}";
    assert Strip("\U{B2}") == "\U{B2}";
    assert IsNonDecimalDigit(Strip("\U{B2}")[0]);
  }

  /**
   * As written, a port number padded with leading zeros past the digit limit
   * crashes, although it reads as a listed index: 4300 zeros then "1", with
   * two ports listed.
   */
  lemma AsWrittenCrashesOnLongNumbers(ports: seq<Port>)
    requires |ports| >= 2
    ensures ChoosePortAsWritten(ports, seq(MaxStrDigits, _ => '0') + "1") == Crash
    ensures ChoosePort(ports, seq(MaxStrDigits, _ => '0') + "1") == Invalid
  {
    var s := seq(MaxStrDigits, _ => '0') + "1";
    assert s[0] == '0' && s[|s| - 1] == '1';
    assert StripLeft(s) == s;
    assert StripRight(s) == s;
    assert IsDecimal(s);
    assert IsDigitString(s);
  }

  /**
   * As written, a decimal digit of another script reads as its value: with
   * four ports, the fullwidth "３" selects the fourth, as does the
   * Arabic-Indic "٣".
   */
  lemma AsWrittenReadsOtherScripts(ports: seq<Port>)
    requires |ports| >= 4
    ensures ChoosePortAsWritten(ports, "\U{FF13}") == Selected(ports[3].device)
    ensures ChoosePortAsWritten(ports, "\U{663}") == Selected(ports[3].device)
  {
    assert StripLeft("\U{FF13}") == "\U{FF13}";
    assert StripLeft("\U{663}") == "\U{663}";
    assert DecimalValue("\U{FF13}") == 3;
    assert DecimalValue("\U{663}") == 3;
  }

  /**
   * The answer check as intended: only decimal digit strings that `int()`
   * converts are read as a number (a `ValueError` is caught), so every other
   * non-empty answer is reported as invalid.
   */
  function ChoosePort(ports: seq<Port>, answer: string): (r: Choice)
    ensures !r.Crash?
    ensures r.Selected? <==>
      IsDecimal(Strip(answer)) && |Strip(answer)| <= MaxStrDigits && DecimalValue(Strip(answer)) < |ports|
    ensures r.Selected? ==> r.device == ports[DecimalValue(Strip(answer))].device
    ensures r.Refresh? <==> Strip(answer) == []
  {
    var choice := Strip(answer);
    if IsDecimal(choice) && |choice| <= MaxStrDigits then
      var idx := DecimalValue(choice);
      if idx < |ports| then Selected(ports[idx].device) else OutOfRange
    else if choice == [] then Refresh
    else Invalid
  }

  /**
   * The correction changes the outcome of the crashing answers only (a digit
   * that is not decimal, or too many digits), and makes them invalid.
   */
  lemma CorrectionOnlyRemovesCrash(ports: seq<Port>, answer: string)
    ensures ChoosePortAsWritten(ports, answer) != Crash ==>
      ChoosePort(ports, answer) == ChoosePortAsWritten(ports, answer)
    ensures ChoosePortAsWritten(ports, answer) == Crash ==> ChoosePort(ports, answer) == Invalid
  {
    var choice := Strip(answer);
    if IsDecimal(choice) {
      assert IsDigitString(choice);
    }
  }

  /**
   * Typing the number shown next to a port selects that port. (An index of
   * more than `MaxStrDigits` digits cannot be printed at all: `str()` has the
   * same limit.)
   */
  lemma {:induction false} EveryListedPortSelectable(ports: seq<Port>, idx: nat)
    requires idx < |ports| && |DecimalString(idx)| <= MaxStrDigits
    ensures ChoosePort(ports, DecimalString(idx)) == Selected(ports[idx].device)
  {
    var s := DecimalString(idx);
    DecimalRoundTrip(idx);
    assert !IsSpace(s[0]);
    assert StripLeft(s) == s;
    assert !IsSpace(s[|s| - 1]);
    assert StripRight(s) == s;
  }

  /** The listing and the answer of one pass of the prompt loop. */
  datatype Round = Round(ports: seq<Port>, answer: string)

  /** Round `k` is the first whose answer selects a port. */
  predicate IsFirstSelection(rounds: seq<Round>, k: int) {
    && 0 <= k < |rounds|
    && ChoosePort(rounds[k].ports, rounds[k].answer).Selected?
    && forall j :: 0 <= j < k ==> !ChoosePort(rounds[j].ports, rounds[j].answer).Selected?
  }

  /**
   * The prompt loop: list the ports, read an answer, and return the device of
   * the first answer that selects one. `None` means every round was spent
   * without a selection (the program would keep prompting).
   */
  method PromptForPort(rounds: seq<Round>) returns (selected: Option<string>)
    ensures selected.None? <==> forall k :: 0 <= k < |rounds| ==> !ChoosePort(rounds[k].ports, rounds[k].answer).Selected?
    ensures selected.Some? ==>
      exists k :: (IsFirstSelection(rounds, k) && selected.value == ChoosePort(rounds[k].ports, rounds[k].answer).device)
  {
    var i := 0;
    while i < |rounds|
      invariant 0 <= i <= |rounds|
      invariant forall j :: 0 <= j < i ==> !ChoosePort(rounds[j].ports, rounds[j].answer).Selected?
    {
      var choice := ChoosePort(rounds[i].ports, rounds[i].answer);
      if choice.Selected? {
        assert IsFirstSelection(rounds, i);
        return Some(choice.device);
      }
      i := i + 1;
    }
    return None;
  }

  // ---------------------------------------------------------------------------
  // The confirmation gate of `before_flight`.

  /** Byte written to erase (format) the device's storage. */
  const EraseCommand: char := 'c'
  /** Byte written to toggle the device's charge mode (logging paused). */
  const PauseCommand: char := 'p'

  /** How `before_flight` ends. */
  datatype PrepOutcome =
    | Cancelled           // the first answer was not "yes"
    | ConfirmationFailed  // the second answer was not "ERASE"
    | Prepared            // both confirmed: erase, then pause logging

  /** The two prompts: `yes` after lower-casing, then `ERASE` after upper-casing. */
  function BeforeFlight(confirm: string, doubleCheck: string): PrepOutcome {
    if Lower(Strip(confirm)) != "yes" then Cancelled
    else if Upper(Strip(doubleCheck)) != "ERASE" then ConfirmationFailed
    else Prepared
  }

  /** The command bytes written to the device, in order. */
  function CommandsSent(outcome: PrepOutcome): string {
    if outcome == Prepared then [EraseCommand, PauseCommand] else []
  }

  /** The trimmed first answer spells "yes" in any mix of cases. */
  predicate AnswersYes(t: string) {
    |t| == 3 && t[0] in "yY" && t[1] in "eE" && t[2] in "sS"
  }

  /**
   * The trimmed second answer spells "ERASE" in any mix of cases (the long s
   * U+017F upper-cases to "S" as well).
   */
  predicate AnswersErase(t: string) {
    |t| == 5 && t[0] in "eE" && t[1] in "rR" && t[2] in "aA" && t[3] in "sS\U{17F}" && t[4] in "eE"
  }

  /**
   * The first answer passes exactly when it spells "yes". This also holds of
   * Python's full `lower()`: no other character lower-cases to y, e or s,
   * and an expanding character ("\U{130}") yields a combining dot, which
   * "yes" does not contain.
   */
  lemma LowerIsYes(t: string)
    ensures Lower(t) == "yes" <==> AnswersYes(t)
  {
    if |t| == 3 && Lower(t) == "yes" {
      assert LowerChar(t[0]) == 'y' && LowerChar(t[1]) == 'e' && LowerChar(t[2]) == 's';
    }
  }

  /**
   * The second answer passes exactly when it spells "ERASE". This also holds
   * of Python's full `upper()`: every multi-character expansion ("SS", "FI",
   * "ST", ...) holds a letter or a doubled S that "ERASE" has no place for.
   */
  lemma UpperIsErase(t: string)
    ensures Upper(t) == "ERASE" <==> AnswersErase(t)
  {
    if |t| == 5 && Upper(t) == "ERASE" {
      assert UpperChar(t[0]) == 'E' && UpperChar(t[1]) == 'R' && UpperChar(t[2]) == 'A';
      assert UpperChar(t[3]) == 'S' && UpperChar(t[4]) == 'E';
    }
  }

  /**
   * A command byte is written only when the first answer is "yes" and the
   * second is "ERASE", each in any mix of cases and with any surrounding
   * whitespace; then the erase byte goes first and the pause byte second.
   * A first answer other than "yes" cancels before the second question matters.
   */
  lemma EraseNeedsBothConfirmations(confirm: string, doubleCheck: string)
    ensures CommandsSent(BeforeFlight(confirm, doubleCheck)) ==
      (if AnswersYes(Strip(confirm)) && AnswersErase(Strip(doubleCheck)) then "cp" else "")
    ensures BeforeFlight(confirm, doubleCheck) == Cancelled <==> !AnswersYes(Strip(confirm))
  {
    LowerIsYes(Strip(confirm));
    UpperIsErase(Strip(doubleCheck));
  }
}
