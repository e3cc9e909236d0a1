/**
 * The field-level validators of `CustomValidators`. Each takes the field's
 * value (a string of Unicode code points) and returns `None` for `null`, or
 * `Some` of the keys of the error map it builds, in insertion order. Three
 * validators pass with `null`; `introducedValueExists` passes with `{}`,
 * which is `Some([])`.
 */
module Validators {
  import opened Wrappers

  /** The keys of one validator's error map. */
  type Errors = seq<string>

  /** A validator's result: `None` is `null`, `Some(keys)` an error map. */
  type Outcome = Option<Errors>

  // ---------------------------------------------------------------- onlyNumber

  predicate IsDigit(c: char) {
    '0' <= c <= '9'
  }

  /** The regular expression `^[0-9]*$`, matched one character at a time. */
  function MatchesDigits(s: string): (b: bool)
    ensures b <==> forall i :: 0 <= i < |s| ==> IsDigit(s[i])
  {
    if s == [] then true else IsDigit(s[0]) && MatchesDigits(s[1..])
  }

  /** `onlyNumber`: the key `number` unless the value is all ASCII digits. */
  function OnlyNumber(value: string): (r: Outcome)
    ensures r == None || r == Some(["number"])
    ensures r == Some(["number"]) <==> exists i :: 0 <= i < |value| && !IsDigit(value[i])
  {
    if !MatchesDigits(value) then Some(["number"]) else None
  }

  // --------------------------------------------------------- hasWhiteSpaceLine

  /**
   * The characters JavaScript's `\s` class matches: the ECMAScript
   * WhiteSpace and LineTerminator code points.
   */
  predicate IsWhitespace(c: char) {
    c == '\t' || c == '\n' || c == '\U{0B}' || c == '\U{0C}' || c == '\r' || c == ' '
    || c == '\U{A0}' || c == '\U{1680}' || '\U{2000}' <= c <= '\U{200A}'
    || c == '\U{2028}' || c == '\U{2029}' || c == '\U{202F}' || c == '\U{205F}'
    || c == '\U{3000}' || c == '\U{FEFF}'
  }

  /** The regular expression `^\s*$`, matched one character at a time. */
  function MatchesBlank(s: string): (b: bool)
    ensures b <==> forall i :: 0 <= i < |s| ==> IsWhitespace(s[i])
  {
    if s == [] then true else IsWhitespace(s[0]) && MatchesBlank(s[1..])
  }

  /** `hasWhiteSpaceLine`: the key `whiteSpaceLine` for a non-empty, all-blank value. */
  function HasWhiteSpaceLine(value: string): (r: Outcome)
    ensures r == None || r == Some(["whiteSpaceLine"])
    ensures r == Some(["whiteSpaceLine"]) <==>
      |value| > 0 && forall i :: 0 <= i < |value| ==> IsWhitespace(value[i])
  {
    if MatchesBlank(value) && |value| > 0 then Some(["whiteSpaceLine"]) else None
  }

  // ----------------------------------------------------- introducedValueExists

  /** `Array.prototype.find` with strict equality: the first element equal to `x`. */
  function Find(list: seq<string>, x: string): (r: Option<string>)
    ensures r.Some? <==> x in list
    ensures r.Some? ==> r.value == x
  {
    if list == [] then None
    else if list[0] == x then Some(list[0])
    else Find(list[1..], x)
  }

  /** The key a failed list-membership check reports, chosen by `customError`. */
  function MissingValueKey(customError: Option<string>): (k: string)
    ensures customError == Some("none") ==> k == "senseMissatge"
    ensures customError.Some? && customError.value != "" && customError.value != "none" ==>
              k == customError.value
    ensures customError.None? || customError == Some("") ==> k == "valueNoExist"
  {
    match customError
    case Some(c) =>
      if c != "" then (if c == "none" then "senseMissatge" else c) else "valueNoExist"
    case None => "valueNoExist"
  }

  /**
   * `introducedValueExists(datalist, customError)` applied to a value: the
   * empty map `{}` (never `null`) for the empty value or one strictly equal
   * to a list element, otherwise a map with exactly one key.
   */
  function IntroducedValueExists(datalist: seq<string>, customError: Option<string>, value: string)
    : (r: Outcome)
    ensures r.Some?
    ensures r == Some([]) <==> value == "" || value in datalist
    ensures r != Some([]) ==> r == Some([MissingValueKey(customError)])
  {
    var found := Find(datalist, value);
    // `found` is truthy exactly when it is a non-empty string.
    if value == "" || (found.Some? && found.value != "") then Some([])
    else Some([MissingValueKey(customError)])
  }

  /**
   * The key a silent failure evidently means to report: `withoutMessage`,
   * which both built-in tables define as the empty string and which no
   * validator reports, whereas neither table defines `senseMissatge`.
   */
  function IntendedMissingValueKey(customError: Option<string>): (k: string)
    ensures customError == Some("none") ==> k == "withoutMessage"
    ensures customError != Some("none") ==> k == MissingValueKey(customError)
  {
    if customError == Some("none") then "withoutMessage" else MissingValueKey(customError)
  }

  /** `introducedValueExists` with the silent failure reported as `withoutMessage`. */
  function IntendedIntroducedValueExists(datalist: seq<string>, customError: Option<string>, value: string)
    : (r: Outcome)
    ensures r.Some?
    ensures r == Some([]) <==> value == "" || value in datalist
    ensures r != Some([]) ==> r == Some([IntendedMissingValueKey(customError)])
  {
    if value == "" || value in datalist then Some([]) else Some([IntendedMissingValueKey(customError)])
  }

  // ------------------------------------------------------------------- maxByte

  /** Bytes in the UTF-8 encoding of one code point (section 3 of RFC 3629). */
  function Utf8Width(c: char): (n: nat)
    ensures 1 <= n <= 4
    ensures n == 1 <==> c < '\U{80}'
  {
    if c < '\U{80}' then 1
    else if c < '\U{800}' then 2
    else if c < '\U{10000}' then 3
    else 4
  }

  /** Bytes in the UTF-8 encoding of a string: the `size` of a one-part `Blob`. */
  function Utf8Len(s: string): (n: nat)
    ensures |s| <= n <= 4 * |s|
  {
    if s == [] then 0 else Utf8Width(s[0]) + Utf8Len(s[1..])
  }

  /** Byte length is additive over concatenation. */
  lemma {:induction false} Utf8LenAppend(a: string, b: string)
    ensures Utf8Len(a + b) == Utf8Len(a) + Utf8Len(b)
  {
    if a == [] {
      assert a + b == b;
    } else {
      assert (a + b)[0] == a[0] && (a + b)[1..] == a[1..] + b;
      Utf8LenAppend(a[1..], b);
    }
  }

  predicate IsAscii(s: string) {
    forall i :: 0 <= i < |s| ==> s[i] < '\U{80}'
  }

  /** An ASCII string takes one byte per character. */
  lemma {:induction false} Utf8LenAscii(s: string)
    requires IsAscii(s)
    ensures Utf8Len(s) == |s|
  {
    if s != [] {
      assert IsAscii(s[1..]) by {
        forall i | 0 <= i < |s[1..]| ensures s[1..][i] < '\U{80}' {
          assert s[1..][i] == s[i + 1];
        }
      }
      Utf8LenAscii(s[1..]);
    }
  }

  /** `maxByte(maxLength)` applied to a value: `maxlength` when it takes at least `maxLength + 1` bytes. */
  function MaxByte(maxLength: int, value: string): (r: Outcome)
    ensures r == None || r == Some(["maxlength"])
    ensures r == None <==> Utf8Len(value) <= maxLength
  {
    var size := Utf8Len(value);
    if size >= maxLength + 1 then Some(["maxlength"]) else None
  }

  /** A value with more code points than the limit always fails `maxByte`. */
  lemma MaxByteRejectsLongValues(maxLength: int, value: string)
    requires |value| > maxLength
    ensures MaxByte(maxLength, value) == Some(["maxlength"])
  {
  }

  /** On ASCII values `maxByte` is a plain length check. */
  lemma MaxByteAsciiIsLengthCheck(maxLength: int, value: string)
    requires IsAscii(value)
    ensures MaxByte(maxLength, value) == None <==> |value| <= maxLength
  {
    Utf8LenAscii(value);
  }

  // ----------------------------------------------------------- concrete cases

  /** Concrete cases of `onlyNumber` and `hasWhiteSpaceLine`. */
  lemma PatternExamples()
    ensures OnlyNumber("123") == None && OnlyNumber("12a") == Some(["number"]) && OnlyNumber("0") == None
    ensures OnlyNumber("") == None
    ensures HasWhiteSpaceLine("   ") == Some(["whiteSpaceLine"])
    ensures HasWhiteSpaceLine("") == None && HasWhiteSpaceLine(" a ") == None
  {
    assert !IsDigit("12a"[2]);
    assert !IsWhitespace(" a "[1]);
  }

  /** Concrete cases of `introducedValueExists` and `maxByte`. */
  lemma FactoryExamples()
    ensures IntroducedValueExists(["A", "B"], None, "C") == Some(["valueNoExist"])
    ensures IntroducedValueExists(["A", "B"], Some("none"), "C") == Some(["senseMissatge"])
    ensures IntroducedValueExists(["A", "B"], Some("X"), "C") == Some(["X"])
    ensures IntroducedValueExists(["A", "B"], Some("X"), "B") == Some([])
    ensures MaxByte(5, "abcde") == None && MaxByte(5, "abcdef") == Some(["maxlength"])
    ensures MaxByte(5, "abcd\U{E9}") == Some(["maxlength"])
  {
    assert "C" != "A" && "C" != "B";
    assert Utf8Len("abcd\U{E9}") == 6;
  }
}
