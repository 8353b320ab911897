/**
 * The Python string operations the report tool relies on, over `string` (a
 * sequence of Unicode code points): `str.strip()`, the `in` substring test,
 * `str.startswith`, `str.split(",")` with its inverse `",".join`, the case
 * mappings used by the confirmation prompts, and decimal digit strings.
 */
module PyStr {

  /** Python's `str.isspace()`: the characters `str.strip()` removes. */
  predicate IsSpace(c: char) {
    || c == ' '
    || '\t' <= c <= '\r'
    || '\U{1C}' <= c <= '\U{1F}'
    || c == '\U{85}' || c == '\U{A0}' || c == '\U{1680}'
    || '\U{2000}' <= c <= '\U{200A}'
    || c == '\U{2028}' || c == '\U{2029}' || c == '\U{202F}'
    || c == '\U{205F}' || c == '\U{3000}'
  }

  /** `s.lstrip()`. */
  function StripLeft(s: string): string {
    if s != [] && IsSpace(s[0]) then StripLeft(s[1..]) else s
  }

  /** `s.rstrip()`. */
  function StripRight(s: string): string {
    if s != [] && IsSpace(s[|s| - 1]) then StripRight(s[..|s| - 1]) else s
  }

  /** `s.strip()`. */
  function Strip(s: string): string {
    StripRight(StripLeft(s))
  }

  /** `lstrip` drops the leading whitespace and nothing else. */
  lemma {:induction false} StripLeftSpec(s: string)
    ensures |StripLeft(s)| <= |s| && StripLeft(s) == s[|s| - |StripLeft(s)|..]
    ensures forall i :: 0 <= i < |s| - |StripLeft(s)| ==> IsSpace(s[i])
    ensures StripLeft(s) == [] || !IsSpace(StripLeft(s)[0])
  {
    if s != [] && IsSpace(s[0]) {
      StripLeftSpec(s[1..]);
      assert s[1..][|s| - 1 - |StripLeft(s)|..] == s[|s| - |StripLeft(s)|..];
      forall i | 0 <= i < |s| - |StripLeft(s)| ensures IsSpace(s[i]) {
        if i > 0 {
          assert s[i] == s[1..][i - 1];
        }
      }
    }
  }

  /** `rstrip` drops the trailing whitespace and nothing else. */
  lemma {:induction false} StripRightSpec(s: string)
    ensures |StripRight(s)| <= |s| && StripRight(s) == s[..|StripRight(s)|]
    ensures forall i :: |StripRight(s)| <= i < |s| ==> IsSpace(s[i])
    ensures StripRight(s) == [] || !IsSpace(StripRight(s)[|StripRight(s)| - 1])
  {
    if s != [] && IsSpace(s[|s| - 1]) {
      StripRightSpec(s[..|s| - 1]);
      assert s[..|s| - 1][..|StripRight(s)|] == s[..|StripRight(s)|];
      forall i | |StripRight(s)| <= i < |s| ensures IsSpace(s[i]) {
        if i < |s| - 1 {
          assert s[i] == s[..|s| - 1][i];
        }
      }
    }
  }

  /**
   * `Strip(s)` is the slice of `s` left once the whitespace at both ends is
   * cut off, and it neither starts nor ends with whitespace.
   */
  lemma StripIsTrimmedSlice(s: string) returns (lo: nat)
    ensures lo + |Strip(s)| <= |s| && Strip(s) == s[lo..lo + |Strip(s)|]
    ensures forall i :: 0 <= i < lo ==> IsSpace(s[i])
    ensures forall i :: lo + |Strip(s)| <= i < |s| ==> IsSpace(s[i])
    ensures Strip(s) == [] || (!IsSpace(Strip(s)[0]) && !IsSpace(Strip(s)[|Strip(s)| - 1]))
  {
    var l := StripLeft(s);
    StripLeftSpec(s);
    lo := |s| - |l|;
    var r := StripRight(l);
    StripRightSpec(l);
    assert Strip(s) == r && r == l[..|r|];
    assert s[lo..lo + |r|] == l[..|r|];
    forall i | lo + |r| <= i < |s| ensures IsSpace(s[i]) {
      assert s[i] == l[i - lo];
    }
    if r != [] {
      assert r[0] == l[0];
    }
  }

  /** A string is blank after stripping exactly when it is all whitespace. */
  lemma StripEmptyIffAllSpace(s: string)
    ensures Strip(s) == [] <==> forall i :: 0 <= i < |s| ==> IsSpace(s[i])
  {
    var lo := StripIsTrimmedSlice(s);
    if Strip(s) != [] {
      assert !IsSpace(s[lo]);
    }
  }

  /** Stripping twice is stripping once. */
  lemma StripIdempotent(s: string)
    ensures Strip(Strip(s)) == Strip(s)
  {
    var t := Strip(s);
    var lo := StripIsTrimmedSlice(s);
    if t != [] {
      assert StripLeft(t) == t;
      assert StripRight(t) == t;
    } else {
      assert Strip(t) == [];
    }
  }

  /** Python's `p in s` on strings: `p` occurs as a contiguous substring of `s`. */
  predicate Contains(s: string, p: string) {
    (|p| <= |s| && s[..|p|] == p) || (s != [] && Contains(s[1..], p))
  }

  /** `p` occurs in `s` starting at offset `i`. */
  predicate OccursAt(s: string, p: string, i: int) {
    0 <= i && i + |p| <= |s| && s[i..i + |p|] == p
  }

  /** `Contains` finds exactly the occurrences of `p` at some offset of `s`. */
  lemma {:induction false} ContainsIff(s: string, p: string)
    ensures Contains(s, p) <==> exists i :: OccursAt(s, p, i)
  {
    if |p| <= |s| && s[..|p|] == p {
      assert OccursAt(s, p, 0);
    } else if s != [] {
      ContainsIff(s[1..], p);
      if Contains(s[1..], p) {
        var i :| OccursAt(s[1..], p, i);
        assert s[1..][i..i + |p|] == s[i + 1..i + 1 + |p|];
        assert OccursAt(s, p, i + 1);
      }
      if i :| OccursAt(s, p, i) {
        assert i != 0;
        assert s[1..][i - 1..i - 1 + |p|] == s[i..i + |p|];
        assert OccursAt(s[1..], p, i - 1);
      }
    }
  }

  /** A string never contains anything longer than itself; the empty string contains only "". */
  lemma {:induction false} ContainsNoLonger(s: string, p: string)
    requires Contains(s, p)
    ensures |p| <= |s|
  {
    if !(|p| <= |s| && s[..|p|] == p) {
      ContainsNoLonger(s[1..], p);
    }
  }

  /** Python's `s.startswith(p)`. */
  predicate StartsWith(s: string, p: string) {
    |p| <= |s| && s[..|p|] == p
  }

  /**
   * `s.startswith(p)` holds exactly when `s` is `p` followed by something,
   * that is, when `p` occurs at offset 0; so it implies `p in s`.
   */
  lemma StartsWithIsOccurrenceAtStart(s: string, p: string)
    ensures StartsWith(s, p) <==> exists t :: s == p + t
    ensures StartsWith(s, p) <==> OccursAt(s, p, 0)
    ensures StartsWith(s, p) ==> Contains(s, p)
  {
    if StartsWith(s, p) {
      assert s == p + s[|p|..];
      assert s[0..|p|] == s[..|p|];
    }
    if t :| s == p + t {
      assert s[..|p|] == p;
    }
  }

  /** The number of occurrences of the character `c` in `s`. */
  function Count(s: string, c: char): nat {
    if s == [] then 0 else (if s[0] == c then 1 else 0) + Count(s[1..], c)
  }

  /**
   * Python's `s.split(sep)` for a one-character separator: the pieces between
   * consecutive separators, so one more piece than there are separators (the
   * empty string splits into one empty piece).
   */
  function Split(s: string, sep: char): (r: seq<string>)
    ensures |r| == Count(s, sep) + 1
  {
    if s == [] then [[]]
    else
      var rest := Split(s[1..], sep);
      if s[0] == sep then [[]] + rest else [[s[0]] + rest[0]] + rest[1..]
  }

  /** Python's `sep.join(parts)` for a one-character separator. */
  function Join(parts: seq<string>, sep: char): string
    requires |parts| >= 1
  {
    if |parts| == 1 then parts[0] else parts[0] + [sep] + Join(parts[1..], sep)
  }

  /** No piece of a split holds the separator. */
  lemma {:induction false} SplitPiecesAreSeparatorFree(s: string, sep: char)
    ensures forall k :: 0 <= k < |Split(s, sep)| ==> sep !in Split(s, sep)[k]
  {
    if s != [] {
      SplitPiecesAreSeparatorFree(s[1..], sep);
    }
  }

  /** Joining the pieces of a split gives back the string. */
  lemma {:induction false} JoinSplit(s: string, sep: char)
    ensures Join(Split(s, sep), sep) == s
  {
    if s != [] {
      var rest := Split(s[1..], sep);
      JoinSplit(s[1..], sep);
      if s[0] == sep {
        assert Split(s, sep)[1..] == rest;
      } else {
        var r := Split(s, sep);
        if |rest| == 1 {
          assert r == [[s[0]] + rest[0]];
        } else {
          assert r[1..] == rest[1..];
          assert Join(rest, sep) == rest[0] + [sep] + Join(rest[1..], sep);
        }
      }
    }
  }

  /** Splitting a join of separator-free pieces gives back the pieces. */
  lemma {:induction false} SplitJoin(parts: seq<string>, sep: char)
    requires |parts| >= 1
    requires forall k :: 0 <= k < |parts| ==> sep !in parts[k]
    ensures Split(Join(parts, sep), sep) == parts
  {
    if |parts| == 1 {
      SplitSeparatorFree(parts[0], sep, []);
      assert parts[0] + [] == parts[0];
      assert Split([], sep) == [[]];
    } else {
      SplitJoin(parts[1..], sep);
      var tail := [sep] + Join(parts[1..], sep);
      assert Split(tail, sep) == [[]] + parts[1..] by {
        assert tail[1..] == Join(parts[1..], sep);
      }
      SplitSeparatorFree(parts[0], sep, tail);
      assert parts[0] + [sep] + Join(parts[1..], sep) == parts[0] + tail;
      assert parts[0] + [] == parts[0];
      assert [parts[0]] + parts[1..] == parts;
    }
  }

  /** A separator-free prefix sticks to the first piece of what follows it. */
  lemma {:induction false} SplitSeparatorFree(w: string, sep: char, t: string)
    requires sep !in w
    ensures Split(w + t, sep) == [w + Split(t, sep)[0]] + Split(t, sep)[1..]
  {
    if w != [] {
      SplitSeparatorFree(w[1..], sep, t);
      assert (w + t)[1..] == w[1..] + t;
      assert [w[0]] + (w[1..] + Split(t, sep)[0]) == w + Split(t, sep)[0];
    } else {
      assert w + t == t;
      var r := Split(t, sep);
      assert w + r[0] == r[0];
      assert [r[0]] + r[1..] == r;
    }
  }

  /**
   * Lower-case form of a character, one character for one: the characters
   * whose lower-case form is an ASCII letter are mapped (the ASCII capitals
   * and the Kelvin sign); every other character is kept, including those
   * Python expands to several characters ("\U{130}" becomes "i\U{307}").
   */
  function LowerChar(c: char): char {
    if 'A' <= c <= 'Z' then (c as int + 32) as char
    else if c == '\U{212A}' then 'k'  // KELVIN SIGN
    else c
  }

  /**
   * Upper-case form of a character, one character for one: the characters
   * whose upper-case form is a single ASCII letter are mapped (the ASCII small
   * letters, long s and dotless i); every other character is kept, including
   * those Python expands to several characters ("\U{DF}" becomes "SS", the
   * ligature "\U{FB01}" becomes "FI").
   */
  function UpperChar(c: char): char {
    if 'a' <= c <= 'z' then (c as int - 32) as char
    else if c == '\U{17F}' then 'S'  // LATIN SMALL LETTER LONG S
    else if c == '\U{131}' then 'I'  // LATIN SMALL LETTER DOTLESS I
    else c
  }

  /**
   * `s.lower()` with one-for-one character mappings only; see `LowerChar`.
   * A character Python expands is kept as it is.
   */
  function Lower(s: string): (r: string)
    ensures |r| == |s| && forall i :: 0 <= i < |s| ==> r[i] == LowerChar(s[i])
  {
    seq(|s|, i requires 0 <= i < |s| => LowerChar(s[i]))
  }

  /**
   * `s.upper()` with one-for-one character mappings only; see `UpperChar`.
   * A character Python expands is kept as it is.
   */
  function Upper(s: string): (r: string)
    ensures |r| == |s| && forall i :: 0 <= i < |s| ==> r[i] == UpperChar(s[i])
  {
    seq(|s|, i requires 0 <= i < |s| => UpperChar(s[i]))
  }

  /**
   * A decimal digit (Unicode category Nd), which both `str.isdigit()` and
   * `int()` accept: the ASCII digits and five further blocks of ten.
   */
  predicate IsDecimalChar(c: char) {
    || '0' <= c <= '9'
    || '\U{660}' <= c <= '\U{669}'    // ARABIC-INDIC
    || '\U{6F0}' <= c <= '\U{6F9}'    // EXTENDED ARABIC-INDIC
    || '\U{966}' <= c <= '\U{96F}'    // DEVANAGARI
    || '\U{9E6}' <= c <= '\U{9EF}'    // BENGALI
    || '\U{FF10}' <= c <= '\U{FF19}'  // FULLWIDTH
  }

  /** `s.isdecimal()`: non-empty and every character a decimal digit. */
  predicate IsDecimal(s: string) {
    |s| > 0 && forall i :: 0 <= i < |s| ==> IsDecimalChar(s[i])
  }

  /**
   * The default limit on the number of digits `int()` converts from a
   * decimal string (CPython 3.11 and the security releases of 3.7 to 3.10):
   * a longer digit string raises ValueError instead.
   */
  const MaxStrDigits: nat := 4300

  /** `int(s)` for a string of decimal digits (leading zeros allowed, any mix of scripts). */
  function DecimalValue(s: string): nat
    requires forall i :: 0 <= i < |s| ==> IsDecimalChar(s[i])
  {
    if s == [] then 0 else 10 * DecimalValue(s[..|s| - 1]) + DigitValue(s[|s| - 1])
  }

  /** The value of a decimal digit: its distance from the zero of its block. */
  function DigitValue(c: char): (r: nat)
    requires IsDecimalChar(c)
    ensures r < 10
  {
    if c <= '9' then c as int - '0' as int
    else if c <= '\U{669}' then c as int - 0x660
    else if c <= '\U{6F9}' then c as int - 0x6F0
    else if c <= '\U{96F}' then c as int - 0x966
    else if c <= '\U{9EF}' then c as int - 0x9E6
    else c as int - 0xFF10
  }

  /** `str(n)`: the canonical decimal rendering of a natural number. */
  function DecimalString(n: nat): string {
    if n < 10 then [('0' as int + n) as char]
    else DecimalString(n / 10) + [('0' as int + n % 10) as char]
  }

  /** `int(str(n)) == n`, and `str(n).isdecimal()`. */
  lemma {:induction false} DecimalRoundTrip(n: nat)
    ensures IsDecimal(DecimalString(n)) && DecimalValue(DecimalString(n)) == n
  {
    var s := DecimalString(n);
    if n >= 10 {
      DecimalRoundTrip(n / 10);
      assert s[..|s| - 1] == DecimalString(n / 10);
    }
  }
}
