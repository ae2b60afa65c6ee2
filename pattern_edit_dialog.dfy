/** The pattern edit dialog's logic: filling the form from a carrier's data, reading it back into
    a pattern dictionary, the quick validity test of a sample AWB, and the regular expression the
    dialog would generate from the form. The widgets themselves are represented by their values. */
module PatternEditDialog {
  import opened Wrappers
  import opened PyStr
  import Registry
  import AwbDetector

  // ---------------------------------------------------------------- form values

  const LengthMin: int := 8
  const LengthMax: int := 100
  const PrefixLengthMin: int := 0
  const PrefixLengthMax: int := 10
  const ConfidenceMin: real := 0.1
  const ConfidenceMax: real := 1.0
  const DefaultConfidence: real := 0.7
  const DefaultLength: int := 11
  const DefaultPrefixLength: int := 3

  /** `QSpinBox.setValue` on a box with range `lo..hi`: the value is clamped into the range. */
  function ClampInt(v: int, lo: int, hi: int): (r: int)
    requires lo <= hi
    ensures lo <= r <= hi
    ensures lo <= v <= hi ==> r == v
    ensures v < lo ==> r == lo
    ensures v > hi ==> r == hi
  {
    if v < lo then lo else if v > hi then hi else v
  }

  /** `QDoubleSpinBox.setValue`, clamped the same way. */
  function ClampReal(v: real, lo: real, hi: real): (r: real)
    requires lo <= hi
    ensures lo <= r <= hi
    ensures lo <= v <= hi ==> r == v
  {
    if v < lo then lo else if v > hi then hi else v
  }

  /** The carrier data the dialog is opened with; `None` marks an absent key and `otherKeys`
      whether the dictionary has keys the dialog does not read. */
  datatype DialogData = DialogData(
    airline: Option<string>,
    prefix: Option<string>,
    length: Option<int>,
    prefixLength: Option<int>,
    formatExamples: Option<seq<string>>,
    separatorAllowed: Option<bool>,
    minConfidence: Option<real>,
    patterns: Option<seq<string>>,
    otherKeys: bool)

  /** The empty dictionary, which is also what `pattern_data=None` becomes. */
  predicate IsEmptyData(d: DialogData) {
    d.airline.None? && d.prefix.None? && d.length.None? && d.prefixLength.None?
    && d.formatExamples.None? && d.separatorAllowed.None? && d.minConfidence.None?
    && d.patterns.None? && !d.otherKeys
  }

  /** The values the form's widgets hold. */
  datatype Form = Form(
    airline: string,
    airlineEditable: bool,
    prefix: string,
    length: int,
    prefixLength: int,
    examplesText: string,
    separatorAllowed: bool,
    minConfidence: real)

  /** Every spin box holds a value inside its range. */
  predicate InRange(f: Form) {
    LengthMin <= f.length <= LengthMax
    && PrefixLengthMin <= f.prefixLength <= PrefixLengthMax
    && ConfidenceMin <= f.minConfidence <= ConfidenceMax
  }

  /** The form right after `setup_ui`: empty texts, each spin box at the bottom of its range
      except the confidence, which starts at 0.7, and the separator box unchecked. */
  const InitialForm: Form := Form("", true, "", LengthMin, PrefixLengthMin, "", false, DefaultConfidence)

  /** `load_pattern_data` on a non-empty dictionary: each widget gets the entry or its default,
      the airline field is locked and the examples are shown one per line. */
  function LoadPatternData(d: DialogData): (f: Form)
    ensures InRange(f) && !f.airlineEditable
    ensures f.airline == d.airline.GetOr("") && f.prefix == d.prefix.GetOr("")
    ensures f.separatorAllowed == d.separatorAllowed.GetOr(true)
    ensures f.length == ClampInt(d.length.GetOr(DefaultLength), LengthMin, LengthMax)
    ensures f.prefixLength == ClampInt(d.prefixLength.GetOr(DefaultPrefixLength), PrefixLengthMin, PrefixLengthMax)
    ensures f.minConfidence == ClampReal(d.minConfidence.GetOr(DefaultConfidence), ConfidenceMin, ConfidenceMax)
  {
    Form(
      d.airline.GetOr(""),
      false,
      d.prefix.GetOr(""),
      ClampInt(d.length.GetOr(DefaultLength), LengthMin, LengthMax),
      ClampInt(d.prefixLength.GetOr(DefaultPrefixLength), PrefixLengthMin, PrefixLengthMax),
      Join("\n", d.formatExamples.GetOr([])),
      d.separatorAllowed.GetOr(true),
      ClampReal(d.minConfidence.GetOr(DefaultConfidence), ConfidenceMin, ConfidenceMax))
  }

  /** The form once the dialog is open: filled from the data unless the data is empty. */
  function OpenForm(d: DialogData): (f: Form)
    ensures InRange(f)
    ensures f.airlineEditable <==> IsEmptyData(d)
  {
    if IsEmptyData(d) then InitialForm else LoadPatternData(d)
  }

  // ---------------------------------------------------------------- reading the form back

  /** The line boundaries of `str.splitlines()`. */
  predicate IsLineBreak(c: char) {
    c == '\n' || c == '\r' || c == '\U{B}' || c == '\U{C}' || c == '\U{1C}' || c == '\U{1D}'
    || c == '\U{1E}' || c == '\U{85}' || c == '\U{2028}' || c == '\U{2029}'
  }

  /** Where the first line of `s` ends. */
  function LineEnd(s: string): (r: nat)
    ensures r <= |s|
    ensures forall k :: 0 <= k < r ==> !IsLineBreak(s[k])
    ensures r < |s| ==> IsLineBreak(s[r])
  {
    if s == [] || IsLineBreak(s[0]) then 0 else 1 + LineEnd(s[1..])
  }

  /** `s.splitlines()`: the lines without their ends, `\r\n` counting as one end, and no empty
      line after a final line end. */
  function SplitLines(s: string): (r: seq<string>)
    ensures forall k :: 0 <= k < |r| ==> forall j :: 0 <= j < |r[k]| ==> !IsLineBreak(r[k][j])
    decreases |s|
  {
    if s == [] then []
    else
      var i := LineEnd(s);
      if i == |s| then [s]
      else
        var next := if s[i] == '\r' && i + 1 < |s| && s[i + 1] == '\n' then i + 2 else i + 1;
        [s[..i]] + SplitLines(s[next..])
  }

  /** `[x.strip() for x in lines if x.strip()]`. */
  function ExampleLines(lines: seq<string>): (r: seq<string>)
    ensures |r| <= |lines|
    ensures forall k :: 0 <= k < |r| ==> Trimmed(r[k])
  {
    if lines == [] then []
    else
      var x := Strip(lines[0]);
      var rest := ExampleLines(lines[1..]);
      if x == "" then rest
      else
        assert Trimmed(x);
        assert forall k :: 0 < k < |rest| + 1 ==> ([x] + rest)[k] == rest[k - 1];
        [x] + rest
  }

  /** Non-empty, with no whitespace at either end. */
  predicate Trimmed(s: string) {
    s != "" && !IsSpace(s[0]) && !IsSpace(s[|s| - 1])
  }

  /** The dictionary `get_pattern` returns. */
  datatype PatternDict = PatternDict(
    airline: string,
    prefix: string,
    length: int,
    prefixLength: int,
    formatExamples: seq<string>,
    separatorAllowed: bool,
    minConfidence: real,
    enabled: bool,
    patterns: Option<seq<string>>)

  /** `get_pattern`: the form's values, the non-blank example lines trimmed, `enabled` set, and
      the `patterns` list of the data being edited carried over when it has one. */
  function GetPattern(f: Form, d: DialogData): (p: PatternDict)
    ensures p.enabled
    ensures p.airline == f.airline && p.prefix == f.prefix && p.length == f.length
    ensures p.prefixLength == f.prefixLength && p.separatorAllowed == f.separatorAllowed
    ensures p.minConfidence == f.minConfidence
    ensures p.formatExamples == ExampleLines(SplitLines(f.examplesText))
    ensures p.patterns == d.patterns
  {
    PatternDict(f.airline, f.prefix, f.length, f.prefixLength, ExampleLines(SplitLines(f.examplesText)),
                f.separatorAllowed, f.minConfidence, true, if IsEmptyData(d) then None else d.patterns)
  }

  /** An example as a user would store it: non-empty, no surrounding whitespace, one line. */
  predicate CleanExample(e: string) {
    e != [] && !IsSpace(e[0]) && !IsSpace(e[|e| - 1]) && forall j :: 0 <= j < |e| ==> !IsLineBreak(e[j])
  }

  lemma StripClean(e: string)
    requires e == [] || (!IsSpace(e[0]) && !IsSpace(e[|e| - 1]))
    ensures Strip(e) == e
  {
    assert LStrip(e) == e;
  }

  /** The first line of a text that starts with one whole line and a newline. */
  lemma LineEndAt(a: string, b: string)
    requires forall j :: 0 <= j < |a| ==> !IsLineBreak(a[j])
    ensures LineEnd(a + "\n" + b) == |a|
  {
    var s := a + "\n" + b;
    var r := LineEnd(s);
    assert s[|a|] == '\n';
    assert forall k :: 0 <= k < |a| ==> s[k] == a[k];
  }

  lemma NoBreakLineEnd(a: string)
    requires forall j :: 0 <= j < |a| ==> !IsLineBreak(a[j])
    ensures LineEnd(a) == |a|
  {
  }

  /** Splitting the newline-joined clean examples gives them back. */
  lemma {:induction false} SplitJoin(ex: seq<string>)
    requires forall k :: 0 <= k < |ex| ==> CleanExample(ex[k])
    ensures SplitLines(Join("\n", ex)) == ex
    decreases |ex|
  {
    if |ex| == 1 {
      NoBreakLineEnd(ex[0]);
    } else if |ex| >= 2 {
      var rest := Join("\n", ex[1..]);
      var s := ex[0] + "\n" + rest;
      assert Join("\n", ex) == s;
      LineEndAt(ex[0], rest);
      assert s[|ex[0]|] == '\n';
      assert s[..|ex[0]|] == ex[0];
      assert s[|ex[0]| + 1..] == rest;
      SplitJoin(ex[1..]);
      assert [ex[0]] + ex[1..] == ex;
    }
  }

  /** Clean lines pass through the example filter unchanged. */
  lemma {:induction false} ExampleLinesClean(lines: seq<string>)
    requires forall k :: 0 <= k < |lines| ==> CleanExample(lines[k])
    ensures ExampleLines(lines) == lines
    decreases |lines|
  {
    if lines != [] {
      StripClean(lines[0]);
      ExampleLinesClean(lines[1..]);
      assert [lines[0]] + lines[1..] == lines;
    }
  }

  /** Opening the dialog on complete data whose values are inside the widgets' ranges and whose
      examples are clean, then reading the form back, returns that data, now enabled. */
  lemma OpenThenGet(d: DialogData)
    requires d.airline.Some? && d.prefix.Some? && d.length.Some? && d.prefixLength.Some?
    requires d.formatExamples.Some? && d.separatorAllowed.Some? && d.minConfidence.Some?
    requires LengthMin <= d.length.value <= LengthMax
    requires PrefixLengthMin <= d.prefixLength.value <= PrefixLengthMax
    requires ConfidenceMin <= d.minConfidence.value <= ConfidenceMax
    requires forall k :: 0 <= k < |d.formatExamples.value| ==> CleanExample(d.formatExamples.value[k])
    ensures GetPattern(OpenForm(d), d) == PatternDict(
      d.airline.value, d.prefix.value, d.length.value, d.prefixLength.value, d.formatExamples.value,
      d.separatorAllowed.value, d.minConfidence.value, true, d.patterns)
  {
    SplitJoin(d.formatExamples.value);
    ExampleLinesClean(d.formatExamples.value);
  }

  // ---------------------------------------------------------------- testing a sample

  /** The characters the test removes: whitespace and `-`, but not `/`. */
  predicate IsTestSeparator(c: char) {
    IsSpace(c) || c == '-'
  }

  /** `test_pattern`'s verdict on a sample for the pattern read from the form. */
  function TestPattern(input: string, p: PatternDict): (valid: bool)
    ensures valid <==>
      var clean := RemoveChars(input, IsTestSeparator);
      |clean| == p.length && (p.prefix == "" || StartsWith(clean, p.prefix))
  {
    var clean := RemoveChars(input, IsTestSeparator);
    if |clean| != p.length then false
    else if p.prefix != "" && !StartsWith(clean, p.prefix) then false
    else true
  }

  lemma {:induction false} RemoveCharsAgree(s: string, d1: char -> bool, d2: char -> bool)
    requires forall k :: 0 <= k < |s| ==> d1(s[k]) == d2(s[k])
    ensures RemoveChars(s, d1) == RemoveChars(s, d2)
    decreases |s|
  {
    if s != [] {
      RemoveCharsAgree(s[1..], d1, d2);
    }
  }

  /** On a sample without `/`, the dialog's test agrees with the detector's validation of the
      same sample against a carrier with the same single-string prefix and length. */
  lemma TestAgreesWithValidation(input: string, p: PatternDict, reg: Registry.Registry, code: string)
    requires input != "" && '/' !in input
    requires Registry.Lookup(reg, code) == Some(Registry.PatternData(
      Some(Registry.PrefixText(p.prefix)), Some(p.length), None, None, None, false))
    ensures TestPattern(input, p) <==> AwbDetector.ValidateAwb(Some(input), reg, code) == Ok(true)
  {
    RemoveCharsAgree(input, IsTestSeparator, AwbDetector.IsValidationSeparator);
    AwbDetector.ValidateAwbIff(Some(input), reg, code);
  }

  // ---------------------------------------------------------------- generating a pattern

  const SeparatorClass: string := "[-\\s]*"

  /** `_generate_pattern`. */
  function GeneratePattern(f: Form): string {
    var sep := if f.separatorAllowed then SeparatorClass else "";
    if f.prefix != "" then f.prefix + sep + "\\d{" + IntToString(f.length - |f.prefix|) + "}"
    else "(?<!\\d)\\d{" + IntToString(f.length) + "}(?!\\d)"
  }

  /** With a prefix, the pattern is the prefix, the separator class exactly when separators are
      allowed, and a digit run of the length left after the prefix. */
  lemma GeneratePrefixed(f: Form)
    requires f.prefix != ""
    ensures var r := GeneratePattern(f);
      var sep := if f.separatorAllowed then SeparatorClass else "";
      StartsWith(r, f.prefix)
      && r[|f.prefix|..] == sep + "\\d{" + IntToString(f.length - |f.prefix|) + "}"
      && (f.separatorAllowed <==> StartsWith(r[|f.prefix|..], SeparatorClass))
  {
    var sep := if f.separatorAllowed then SeparatorClass else "";
    var digits := "\\d{" + IntToString(f.length - |f.prefix|) + "}";
    assert GeneratePattern(f) == f.prefix + (sep + digits);
    PrefixThenTail(f.prefix, sep + digits);
    SeparatorShown(f.separatorAllowed, IntToString(f.length - |f.prefix|));
  }

  lemma PrefixThenTail(prefix: string, tail: string)
    ensures StartsWith(prefix + tail, prefix) && (prefix + tail)[|prefix|..] == tail
  {
    assert (prefix + tail)[..|prefix|] == prefix;
  }

  /** The part after the prefix starts with the separator class exactly when separators are
      allowed. */
  lemma SeparatorShown(allowed: bool, n: string)
    ensures var tail := (if allowed then SeparatorClass else "") + "\\d{" + n + "}";
      allowed <==> StartsWith(tail, SeparatorClass)
  {
    var tail := (if allowed then SeparatorClass else "") + "\\d{" + n + "}";
    if allowed {
      assert tail[..|SeparatorClass|] == SeparatorClass;
    } else {
      assert tail[1] == 'd';
      assert SeparatorClass[1] == '-';
    }
  }

  /** Without a prefix, the pattern is a digit run of the full length bounded by non-digits, and
      the separator flag is ignored. */
  lemma GenerateUnprefixed(f: Form)
    requires f.prefix == ""
    ensures GeneratePattern(f) == "(?<!\\d)\\d{" + IntToString(f.length) + "}(?!\\d)"
    ensures GeneratePattern(f) == GeneratePattern(f.(separatorAllowed := !f.separatorAllowed))
  {
  }
}
