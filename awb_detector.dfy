/** `AWBDetector` (utils/awb_detector.py): finds shipment references (air waybill numbers) in
    mail text. Regular-expression matching and the fuzzy ratio are supplied as `Oracles`; the
    cleaning, normalisation, validation, scoring, gating and deduplication are modelled exactly. */
module AwbDetector {
  import opened Wrappers
  import opened PyStr
  import opened Registry
  import FuzzyMatcher

  // ---------------------------------------------------------------- text cleaning

  /** The argument of `_clean_text` / `_search_text`: a string, or some other Python value of
      which only its truth value matters. */
  datatype TextArg = Text(s: string) | NonText(truthy: bool)

  predicate TextTruthy(t: TextArg) {
    match t
    case Text(s) => s != ""
    case NonText(b) => b
  }

  const EnDash: char := '\U{2013}'
  const EmDash: char := '\U{2014}'

  /** `re.sub(r'<[^>]+>', ' ', s)`: a `<`, at least one character other than `>`, then `>`,
      becomes one space. */
  function StripTags(s: string): string
    decreases |s|
  {
    if s == [] then []
    else if s[0] == '<' then
      match IndexOf(s[1..], ">")
      case Some(k) => if k >= 1 then " " + StripTags(s[k + 2..]) else [s[0]] + StripTags(s[1..])
      case None => [s[0]] + StripTags(s[1..])
    else [s[0]] + StripTags(s[1..])
  }

  /** Every whitespace character is a plain space and no two whitespace characters are adjacent. */
  predicate SpacesCollapsed(s: string) {
    (forall k :: 0 <= k < |s| ==> IsSpace(s[k]) ==> s[k] == ' ')
    && (forall k :: 0 <= k < |s| - 1 ==> !(IsSpace(s[k]) && IsSpace(s[k + 1])))
  }

  /** `re.sub(r'\s+', ' ', s)`: each maximal run of whitespace becomes one space. */
  function CollapseSpaces(s: string): (r: string)
    ensures SpacesCollapsed(r)
    ensures s != [] && !IsSpace(s[0]) ==> r != [] && r[0] == s[0]
    decreases |s|
  {
    if s == [] then []
    else if IsSpace(s[0]) then
      var t := LStrip(s);
      assert |t| < |s| by { assert t != s; }
      " " + CollapseSpaces(t)
    else [s[0]] + CollapseSpaces(s[1..])
  }

  /** `.replace('–', '-').replace('—', '-')`. */
  function ReplaceDashes(s: string): string {
    Replace(Replace(s, [EnDash], "-"), [EmDash], "-")
  }

  /** `_clean_text`: `""` for a non-string, otherwise tags become spaces, whitespace runs
      collapse, en and em dashes become hyphens and the ends are stripped. */
  function CleanText(t: TextArg): (r: string)
    ensures t.NonText? ==> r == ""
    ensures r == [] || (!IsSpace(r[0]) && !IsSpace(r[|r| - 1]))
    ensures SpacesCollapsed(r)
    ensures EnDash !in r && EmDash !in r
  {
    match t
    case NonText(_) => ""
    case Text(s) =>
      var c := CollapseSpaces(StripTags(s));
      var d := ReplaceDashes(c);
      DashesReplaced(c);
      var r := Strip(d);
      StripIsSlice(d);
      r
  }

  /** Replacing the dashes keeps the spacing and leaves no dash. */
  lemma DashesReplaced(c: string)
    requires SpacesCollapsed(c)
    ensures SpacesCollapsed(ReplaceDashes(c)) && EnDash !in ReplaceDashes(c) && EmDash !in ReplaceDashes(c)
  {
    var c1 := Replace(c, [EnDash], "-");
    ReplaceOneChar(c, EnDash, '-');
    ReplaceOneChar(c1, EmDash, '-');
    var d := ReplaceDashes(c);
    assert forall k :: 0 <= k < |d| ==> (IsSpace(d[k]) <==> IsSpace(c[k])) && d[k] != EnDash && d[k] != EmDash;
  }

  /** `str.strip()` returns a contiguous slice, so it keeps the spacing and the absence of dashes. */
  lemma StripIsSlice(d: string)
    ensures SpacesCollapsed(d) ==> SpacesCollapsed(Strip(d))
    ensures EnDash !in d ==> EnDash !in Strip(d)
    ensures EmDash !in d ==> EmDash !in Strip(d)
  {
    var i, j := StripAt(d);
    SliceKeeps(d, i, j);
  }

  /** `strip` cuts a slice out of its argument. */
  lemma StripAt(d: string) returns (i: nat, j: nat)
    ensures i <= j <= |d| && Strip(d) == d[i..j]
  {
    var l := LStrip(d);
    var r := RStrip(l);
    i := |d| - |l|;
    j := i + |r|;
    assert l == d[i..];
    assert r == l[..|r|];
  }

  /** A slice keeps collapsed whitespace and the absence of a character. */
  lemma SliceKeeps(d: string, i: nat, j: nat)
    requires i <= j <= |d|
    ensures SpacesCollapsed(d) ==> SpacesCollapsed(d[i..j])
    ensures EnDash !in d ==> EnDash !in d[i..j]
    ensures EmDash !in d ==> EmDash !in d[i..j]
  {
    var t := d[i..j];
    assert forall k :: 0 <= k < |t| ==> t[k] == d[i + k];
  }

  /** Cleaning leaves no newline, so `clean_text.split('\n')` is the one-element list. */
  lemma CleanTextOneLine(t: TextArg)
    ensures Split(CleanText(t), "\n") == [CleanText(t)]
  {
    var r := CleanText(t);
    CollapsedNoNewline(r);
    ContainsChar(r, '\n');
    assert IndexOf(r, "\n").None?;
  }

  /** Collapsed whitespace is all spaces, so no newline is left. */
  lemma CollapsedNoNewline(r: string)
    requires SpacesCollapsed(r)
    ensures '\n' !in r
  {
    forall k | 0 <= k < |r| ensures r[k] != '\n' {
      assert IsSpace(r[k]) ==> r[k] == ' ';
    }
  }

  // ---------------------------------------------------------------- normalisation and validation

  /** One record of `pattern.finditer(line)`: the matched text, its start, `lastindex` (0 for
      `None`) and group 1 (`None` when that group did not take part). */
  datatype RegexMatch = RegexMatch(text: string, start: nat, lastIndex: nat, group1: Option<string>)

  predicate IsSpaceOrHyphen(c: char) {
    IsSpace(c) || c == '-'
  }

  /** The class `[-\s/]` that validation deletes. */
  predicate IsValidationSeparator(c: char) {
    IsSpace(c) || c == '-' || c == '/'
  }

  /** `re.sub(r'[\s-]+', '', raw)`. */
  function SeparatorFree(s: string): (r: string)
    ensures forall k :: 0 <= k < |r| ==> !IsSpaceOrHyphen(r[k])
  {
    RemoveChars(s, IsSpaceOrHyphen)
  }

  /** `_normalize_awb`: `None` is Python's `None`, which `match.group(1)` yields when group 1 did
      not take part. */
  function NormalizeAwb(m: RegexMatch, airline: string): Option<string>
  {
    var clean := SeparatorFree(m.text);
    if airline == "DHL" then
      if m.lastIndex != 0 then m.group1 else Some(clean)
    else if airline == "OZEL" then Some(clean)
    else if |clean| >= 11 then Some(clean[..3] + "-" + clean[3..11])
    else Some(clean)
  }

  /** A generic carrier's long match becomes `PPP-NNNNNNNN`: twelve characters, a hyphen at
      index 3, the first eleven separator-free characters around it and nothing beyond. */
  lemma NormalizeGenericShape(m: RegexMatch, airline: string)
    requires airline != "DHL" && airline != "OZEL" && |SeparatorFree(m.text)| >= 11
    ensures var r := NormalizeAwb(m, airline);
      r.Some? && |r.value| == 12 && r.value[3] == '-'
      && r.value[..3] + r.value[4..] == SeparatorFree(m.text)[..11]
  {
    var clean := SeparatorFree(m.text);
    assert clean[..3] + clean[3..11] == clean[..11];
  }

  /** Apart from DHL with a capture group, the code is the separator-free match or, for a
      generic carrier, its first eleven characters with one hyphen after the third. */
  lemma NormalizeSeparators(m: RegexMatch, airline: string)
    requires !(airline == "DHL" && m.lastIndex != 0)
    ensures var r := NormalizeAwb(m, airline);
      r.Some? && forall k :: 0 <= k < |r.value| && k != 3 ==> !IsSpaceOrHyphen(r.value[k])
    ensures airline == "DHL" || airline == "OZEL" || |SeparatorFree(m.text)| < 11 ==>
      NormalizeAwb(m, airline) == Some(SeparatorFree(m.text))
  {
    var clean := SeparatorFree(m.text);
    if airline != "DHL" && airline != "OZEL" && |clean| >= 11 {
      var r := clean[..3] + "-" + clean[3..11];
      assert forall k :: 4 <= k < 12 ==> r[k] == clean[k - 1];
    }
  }

  /** `any(s.startswith(p) for p in items)`. */
  function StartsWithAny(s: string, items: seq<string>): (r: bool)
    ensures r <==> exists i :: 0 <= i < |items| && StartsWith(s, items[i])
  {
    if items == [] then false
    else
      var rest := StartsWithAny(s, items[1..]);
      assert forall i :: 1 <= i < |items| ==> items[i] == items[1..][i - 1];
      StartsWith(s, items[0]) || rest
  }

  /** The prefix rule: a false prefix (null, empty string, empty list) admits every code. */
  predicate PrefixAdmits(p: Prefix, clean: string) {
    match p
    case PrefixNull => true
    case PrefixText(t) => t == "" || StartsWith(clean, t)
    case PrefixList(items) => items == [] || StartsWithAny(clean, items)
  }

  /** `_validate_awb`; `Raised` is the `KeyError` of an entry without `prefix` or `length`. */
  function ValidateAwb(awb: Option<string>, reg: Registry, airline: string): (r: Result<bool>)
    ensures r == Ok(true) ==> awb.Some? && awb.value != "" && Lookup(reg, airline).Some?
  {
    if awb.None? || awb.value == "" then Ok(false)
    else
      var clean := RemoveChars(awb.value, IsValidationSeparator);
      match Lookup(reg, airline)
      case None => Ok(false)
      case Some(d) =>
        if IsEmptyEntry(d) then Ok(false)
        else if d.prefix.None? then Raised("KeyError: 'prefix'")
        else if d.length.None? then Raised("KeyError: 'length'")
        else if |clean| != d.length.value then Ok(false)
        else Ok(PrefixAdmits(d.prefix.value, clean))
  }

  /** A code is valid exactly when it is non-empty, its carrier has an entry, and the code with
      `-`, whitespace and `/` removed has the configured length and starts with the string prefix
      or with some element of the list prefix (a false prefix admits every code); the check
      raises exactly when a non-empty entry lacks `prefix` or `length`. */
  lemma ValidateAwbIff(awb: Option<string>, reg: Registry, airline: string)
    ensures ValidateAwb(awb, reg, airline) == Ok(true) <==>
      awb.Some? && awb.value != "" && Lookup(reg, airline).Some?
      && var d := Lookup(reg, airline).value;
         var clean := RemoveChars(awb.value, IsValidationSeparator);
         d.prefix.Some? && d.length.Some? && |clean| == d.length.value
         && (PrefixTruthy(d.prefix.value) ==>
               (d.prefix.value.PrefixText? && StartsWith(clean, d.prefix.value.text))
               || (d.prefix.value.PrefixList?
                   && exists i :: 0 <= i < |d.prefix.value.items| && StartsWith(clean, d.prefix.value.items[i])))
    ensures ValidateAwb(awb, reg, airline).Raised? <==>
      awb.Some? && awb.value != "" && Lookup(reg, airline).Some? && !IsEmptyEntry(Lookup(reg, airline).value)
      && (Lookup(reg, airline).value.prefix.None? || Lookup(reg, airline).value.length.None?)
  {
  }

  // ---------------------------------------------------------------- confidence and context

  /** The context words of `_calculate_confidence` and their bonuses. */
  const Indicators: seq<(string, real)> :=
    [("awb", 0.3), ("tracking", 0.2), ("shipment", 0.2), ("waybill", 0.2), ("air cargo", 0.2)]

  predicate AllDigits(s: string) {
    forall k :: 0 <= k < |s| ==> IsDigit(s[k])
  }

  /** `re.match(r'^\d{3}-\d{8}$', text)`; `$` also matches before a final newline. */
  predicate IsPerfectFormat(t: string) {
    var body := if |t| == 13 && t[12] == '\n' then t[..12] else t;
    |body| == 12 && AllDigits(body[..3]) && body[3] == '-' && AllDigits(body[4..])
  }

  /** The sum of the bonuses of the indicators that occur (case-insensitively) in `line`. */
  function IndicatorBonus(lowerLine: string, inds: seq<(string, real)>): (b: real)
    requires forall k :: 0 <= k < |inds| ==> inds[k].1 >= 0.0
    ensures b >= 0.0
  {
    if inds == [] then 0.0
    else
      var prev := IndicatorBonus(lowerLine, inds[..|inds| - 1]);
      var last := inds[|inds| - 1];
      prev + if Contains(lowerLine, last.0) then last.1 else 0.0
  }

  /** `_calculate_confidence`: it starts at 1.0, only adds non-negative bonuses and caps the sum
      at 1.0, so the score is always exactly 1.0. */
  function ConfidenceScore(text: string, line: string): (r: real)
    ensures r == 1.0
  {
    var c := 1.0 + IndicatorBonus(Lower(line), Indicators) + (if IsPerfectFormat(text) then 0.3 else 0.0);
    if c <= 1.0 then c else 1.0
  }

  method CalculateConfidence(text: string, line: string) returns (confidence: real)
    ensures confidence == ConfidenceScore(text, line)
  {
    confidence := 1.0;
    var lower := Lower(line);
    var i := 0;
    while i < |Indicators|
      invariant 0 <= i <= |Indicators|
      invariant confidence == 1.0 + IndicatorBonus(lower, Indicators[..i])
    {
      assert Indicators[..i + 1][..i] == Indicators[..i];
      if Contains(lower, Indicators[i].0) {
        confidence := confidence + Indicators[i].1;
      }
      i := i + 1;
    }
    assert Indicators[..i] == Indicators;
    if IsPerfectFormat(text) {
      confidence := confidence + 0.3;
    }
    if confidence > 1.0 {
      confidence := 1.0;
    }
  }

  /** What `_get_enhanced_context` returns. */
  datatype Context = Context(before: string, current: string, after: string, lineNumber: int, position: int)

  const Window: nat := 50

  /** `s[i:j]` for non-negative bounds. */
  function PySlice(s: string, i: nat, j: nat): (r: string)
    ensures i <= j <= |s| ==> r == s[i..j]
    ensures |r| <= if i <= j then j - i else 0
  {
    var hi := if j <= |s| then j else |s|;
    if i < hi then s[i..hi] else ""
  }

  /** `_get_enhanced_context`: up to 50 characters of the cleaned text before the match start and
      up to 50 from it, which together are the window around the start. */
  function EnhancedContext(text: string, line: string, pos: nat, lineNo: int): (c: Context)
    ensures |c.before| <= Window && |c.after| <= Window
    ensures c.current == line && c.lineNumber == lineNo && c.position == pos
    ensures pos <= |text| ==>
      var lo := if pos >= Window then pos - Window else 0;
      var hi := if pos + Window <= |text| then pos + Window else |text|;
      c.before == text[lo..pos] && c.after == text[pos..hi] && c.before + c.after == text[lo..hi]
  {
    var lo := if pos >= Window then pos - Window else 0;
    var hi := if pos + Window <= |text| then pos + Window else |text|;
    Context(PySlice(text, lo, pos), line, PySlice(text, pos, hi), lineNo, pos)
  }

  // ---------------------------------------------------------------- searching one text

  /** The foreign parts: `pattern.finditer(line)` (case-insensitive, by pattern text) and
      `fuzz.ratio`. */
  datatype Oracles = Oracles(finditer: (string, string) -> seq<RegexMatch>,
                             ratio: (string, string) -> FuzzyMatcher.Percent)

  /** One entry of `compiled_patterns`: a carrier code and its patterns. */
  datatype Compiled = Compiled(code: string, patterns: seq<string>)

  /** A result record of `_search_text` (`context` is absent from the entries found by AI). */
  datatype Detection = Detection(awb: string, airline: string, matchText: string, confidence: real,
                                 context: Option<Context>, lineNumber: int, location: string)

  /** What stays fixed while one text is searched. */
  datatype Env = Env(reg: Registry, ora: Oracles, clean: string, location: string)

  /** Whether the fuzzy result replaces the base score: `matched_text` is a non-empty string. */
  predicate UsesFuzzy(fz: (Option<string>, real)) {
    fz.0.Some? && fz.0.value != ""
  }

  /** The body of the innermost loop of `_search_text` for one match: normalise, validate, score,
      gate. `None` when nothing is appended (invalid, below the gate, or a caught exception). */
  function DetectMatch(env: Env, line: string, lineNo: int, airline: string, minConf: real, m: RegexMatch)
    : Option<Detection>
  {
    var norm := NormalizeAwb(m, airline);
    match ValidateAwb(norm, env.reg, airline)
    case Raised(_) => None
    case Ok(valid) =>
      if !valid then None
      else
        var fz := FuzzyMatcher.BestMatch(env.ora.ratio, norm.value, [m.text], minConf);
        var base := ConfidenceScore(m.text, line);
        var conf := if UsesFuzzy(fz) then fz.1 else base;
        var text := if UsesFuzzy(fz) then fz.0.value else m.text;
        if conf >= minConf
        then Some(Detection(norm.value, airline, text, conf, Some(EnhancedContext(env.clean, line, m.start, lineNo)),
                            lineNo, env.location))
        else None
  }

  function OptToSeq(o: Option<Detection>): seq<Detection> {
    if o.Some? then [o.value] else []
  }

  /** Records appended for the matches `ms` of one pattern. */
  function MatchesSpec(env: Env, line: string, lineNo: int, airline: string, minConf: real, ms: seq<RegexMatch>)
    : seq<Detection>
  {
    if ms == [] then []
    else MatchesSpec(env, line, lineNo, airline, minConf, ms[..|ms| - 1])
         + OptToSeq(DetectMatch(env, line, lineNo, airline, minConf, ms[|ms| - 1]))
  }

  /** Records appended for the patterns `pats` of one carrier. */
  function PatternsSpec(env: Env, line: string, lineNo: int, airline: string, minConf: real, pats: seq<string>)
    : seq<Detection>
  {
    if pats == [] then []
    else PatternsSpec(env, line, lineNo, airline, minConf, pats[..|pats| - 1])
         + MatchesSpec(env, line, lineNo, airline, minConf, env.ora.finditer(pats[|pats| - 1], line))
  }

  /** Records appended for the carriers `cs` on one line. */
  function CarriersSpec(env: Env, line: string, lineNo: int, cs: seq<Compiled>): seq<Detection>
  {
    if cs == [] then []
    else
      var c := cs[|cs| - 1];
      CarriersSpec(env, line, lineNo, cs[..|cs| - 1])
      + PatternsSpec(env, line, lineNo, c.code, MinConfidence(env.reg, c.code), c.patterns)
  }

  /** Records appended for the first `n` lines (numbered from 1). */
  function LinesSpec(env: Env, compiled: seq<Compiled>, lines: seq<string>, n: nat): seq<Detection>
    requires n <= |lines|
  {
    if n == 0 then []
    else LinesSpec(env, compiled, lines, n - 1) + CarriersSpec(env, lines[n - 1], n, compiled)
  }

  lemma LinesSpecStep(env: Env, compiled: seq<Compiled>, lines: seq<string>, n: nat)
    requires n < |lines|
    ensures LinesSpec(env, compiled, lines, n + 1) == LinesSpec(env, compiled, lines, n) + CarriersSpec(env, lines[n], n + 1, compiled)
  {
  }

  function RegOf(f: PatternFile): Registry {
    f.patterns.GetOr([])
  }

  /** `_search_text(text, location)`. */
  function SearchSpec(file: PatternFile, compiled: seq<Compiled>, ora: Oracles, text: TextArg, location: string)
    : seq<Detection>
  {
    if !TextTruthy(text) then []
    else
      var clean := CleanText(text);
      var lines := Split(clean, "\n");
      LinesSpec(Env(RegOf(file), ora, clean, location), compiled, lines, |lines|)
  }

  /** What every record of `_search_text` satisfies: its code passed `_validate_awb`, its
      confidence reaches its carrier's `min_confidence`, and it carries the searched location. */
  predicate Sound(reg: Registry, location: string, d: Detection) {
    ValidateAwb(Some(d.awb), reg, d.airline) == Ok(true)
    && d.confidence >= MinConfidence(reg, d.airline)
    && d.location == location
  }

  /** A record appended for a match keeps the raw match text; its confidence is the fuzzy ratio
      when the fuzzy matcher chose the (non-empty) match text and the base score 1.0 otherwise. */
  lemma DetectMatchChoice(env: Env, line: string, lineNo: int, airline: string, m: RegexMatch)
    requires DetectMatch(env, line, lineNo, airline, MinConfidence(env.reg, airline), m).Some?
    ensures var d := DetectMatch(env, line, lineNo, airline, MinConfidence(env.reg, airline), m).value;
      var minConf := MinConfidence(env.reg, airline);
      var fuzzy := m.text != "" && FuzzyMatcher.Qualifies(env.ora.ratio, d.awb, m.text, minConf);
      Sound(env.reg, env.location, d) && d.airline == airline && d.lineNumber == lineNo
      && d.matchText == m.text
      && d.confidence == (if fuzzy then FuzzyMatcher.Score(env.ora.ratio, d.awb, m.text) else 1.0)
  {
    var minConf := MinConfidence(env.reg, airline);
    var norm := NormalizeAwb(m, airline);
    var fz := FuzzyMatcher.BestMatch(env.ora.ratio, norm.value, [m.text], minConf);
    FuzzyMatcher.BestMatchChosen(env.ora.ratio, norm.value, [m.text], minConf);
    FuzzyMatcher.BestMatchNone(env.ora.ratio, norm.value, [m.text], minConf);
  }

  /** Every record of `s` is sound and lies on a line numbered `lo` to `hi`. */
  predicate AllSound(reg: Registry, location: string, lo: int, hi: int, s: seq<Detection>) {
    forall k :: 0 <= k < |s| ==> Sound(reg, location, s[k]) && lo <= s[k].lineNumber <= hi
  }

  lemma AllSoundAppend(reg: Registry, location: string, lo: int, hi: int, a: seq<Detection>, b: seq<Detection>)
    requires AllSound(reg, location, lo, hi, a) && AllSound(reg, location, lo, hi, b)
    ensures AllSound(reg, location, lo, hi, a + b)
  {
    forall k | 0 <= k < |a + b| ensures Sound(reg, location, (a + b)[k]) && lo <= (a + b)[k].lineNumber <= hi {
      if k < |a| { assert (a + b)[k] == a[k]; } else { assert (a + b)[k] == b[k - |a|]; }
    }
  }

  lemma AllSoundWiden(reg: Registry, location: string, lo: int, hi: int, lo': int, hi': int, s: seq<Detection>)
    requires AllSound(reg, location, lo, hi, s) && lo' <= lo && hi <= hi'
    ensures AllSound(reg, location, lo', hi', s)
  {
  }

  lemma {:induction false} MatchesSound(env: Env, line: string, lineNo: int, airline: string, ms: seq<RegexMatch>)
    ensures AllSound(env.reg, env.location, lineNo, lineNo,
                     MatchesSpec(env, line, lineNo, airline, MinConfidence(env.reg, airline), ms))
  {
    if ms != [] {
      var minConf := MinConfidence(env.reg, airline);
      var a := MatchesSpec(env, line, lineNo, airline, minConf, ms[..|ms| - 1]);
      MatchesSound(env, line, lineNo, airline, ms[..|ms| - 1]);
      var o := DetectMatch(env, line, lineNo, airline, minConf, ms[|ms| - 1]);
      if o.Some? {
        DetectMatchChoice(env, line, lineNo, airline, ms[|ms| - 1]);
        AllSoundAppend(env.reg, env.location, lineNo, lineNo, a, [o.value]);
      } else {
        assert a + OptToSeq(o) == a;
      }
    }
  }

  lemma {:induction false} PatternsSound(env: Env, line: string, lineNo: int, airline: string, pats: seq<string>)
    ensures AllSound(env.reg, env.location, lineNo, lineNo,
                     PatternsSpec(env, line, lineNo, airline, MinConfidence(env.reg, airline), pats))
  {
    if pats != [] {
      var minConf := MinConfidence(env.reg, airline);
      var ms := env.ora.finditer(pats[|pats| - 1], line);
      PatternsSound(env, line, lineNo, airline, pats[..|pats| - 1]);
      MatchesSound(env, line, lineNo, airline, ms);
      AllSoundAppend(env.reg, env.location, lineNo, lineNo,
                     PatternsSpec(env, line, lineNo, airline, minConf, pats[..|pats| - 1]),
                     MatchesSpec(env, line, lineNo, airline, minConf, ms));
    }
  }

  lemma {:induction false} CarriersSound(env: Env, line: string, lineNo: int, cs: seq<Compiled>)
    ensures AllSound(env.reg, env.location, lineNo, lineNo, CarriersSpec(env, line, lineNo, cs))
  {
    if cs != [] {
      var c := cs[|cs| - 1];
      CarriersSound(env, line, lineNo, cs[..|cs| - 1]);
      PatternsSound(env, line, lineNo, c.code, c.patterns);
      AllSoundAppend(env.reg, env.location, lineNo, lineNo,
                     CarriersSpec(env, line, lineNo, cs[..|cs| - 1]),
                     PatternsSpec(env, line, lineNo, c.code, MinConfidence(env.reg, c.code), c.patterns));
    }
  }

  lemma {:induction false} LinesSound(env: Env, compiled: seq<Compiled>, lines: seq<string>, n: nat)
    requires n <= |lines|
    ensures AllSound(env.reg, env.location, 1, n, LinesSpec(env, compiled, lines, n))
  {
    if n > 0 {
      var a := LinesSpec(env, compiled, lines, n - 1);
      var b := CarriersSpec(env, lines[n - 1], n, compiled);
      LinesSound(env, compiled, lines, n - 1);
      AllSoundWiden(env.reg, env.location, 1, n - 1, 1, n, a);
      CarriersSound(env, lines[n - 1], n, compiled);
      AllSoundWiden(env.reg, env.location, n, n, 1, n, b);
      AllSoundAppend(env.reg, env.location, 1, n, a, b);
    }
  }

  /** Every record of `_search_text` is sound and lies on line 1, because the cleaned text is a
      single line. */
  lemma SearchSound(file: PatternFile, compiled: seq<Compiled>, ora: Oracles, text: TextArg, location: string)
    ensures AllSound(RegOf(file), location, 1, 1, SearchSpec(file, compiled, ora, text, location))
  {
    if TextTruthy(text) {
      var clean := CleanText(text);
      CleanTextOneLine(text);
      assert Split(clean, "\n") == [clean];
      LinesSound(Env(RegOf(file), ora, clean, location), compiled, [clean], 1);
    }
  }

  // ---------------------------------------------------------------- deduplication

  /** The codes of the records of `s`. */
  function AwbsOf(s: seq<Detection>): set<string> {
    set k | 0 <= k < |s| :: s[k].awb
  }

  /** `_remove_duplicates` after it has seen `s`: a record is kept when no earlier record had its
      code. */
  function Dedupe(s: seq<Detection>): seq<Detection>
  {
    if s == [] then []
    else
      var prev := Dedupe(s[..|s| - 1]);
      var x := s[|s| - 1];
      if x.awb in AwbsOf(prev) then prev else prev + [x]
  }

  method RemoveDuplicates(results: seq<Detection>) returns (unique: seq<Detection>)
    ensures unique == Dedupe(results)
  {
    var seen: set<string> := {};
    unique := [];
    var i := 0;
    while i < |results|
      invariant 0 <= i <= |results|
      invariant unique == Dedupe(results[..i])
      invariant seen == AwbsOf(unique)
    {
      assert results[..i + 1][..i] == results[..i];
      if results[i].awb !in seen {
        AwbsOfAppend(unique, results[i]);
        seen := seen + {results[i].awb};
        unique := unique + [results[i]];
      }
      i := i + 1;
    }
    assert results[..i] == results;
  }

  lemma AwbsOfAppend(a: seq<Detection>, x: Detection)
    ensures AwbsOf(a + [x]) == AwbsOf(a) + {x.awb}
  {
    var r := a + [x];
    forall w ensures w in AwbsOf(r) <==> w in AwbsOf(a) + {x.awb} {
      if w in AwbsOf(r) {
        var k :| 0 <= k < |r| && r[k].awb == w;
        if k < |a| { assert a[k] == r[k]; }
      }
      if w in AwbsOf(a) {
        var k :| 0 <= k < |a| && a[k].awb == w;
        assert r[k] == a[k];
      }
      if w == x.awb {
        assert r[|a|] == x;
      }
    }
  }

  /** Deduplication keeps every code and only codes of the input, and no two kept records share
      a code. */
  lemma {:induction false} DedupeDistinct(s: seq<Detection>)
    ensures AwbsOf(Dedupe(s)) == AwbsOf(s)
    ensures forall i, j :: 0 <= i < j < |Dedupe(s)| ==> Dedupe(s)[i].awb != Dedupe(s)[j].awb
    ensures forall i :: 0 <= i < |Dedupe(s)| ==> Dedupe(s)[i] in s
  {
    if s != [] {
      var init := s[..|s| - 1];
      var x := s[|s| - 1];
      DedupeDistinct(init);
      assert init + [x] == s;
      AwbsOfAppend(init, x);
      var prev := Dedupe(init);
      if x.awb !in AwbsOf(prev) {
        AwbsOfAppend(prev, x);
        var r := prev + [x];
        forall i, j | 0 <= i < j < |r| ensures r[i].awb != r[j].awb {
          if j == |prev| {
            assert r[i] == prev[i];
            assert prev[i].awb in AwbsOf(prev);
          }
        }
      }
    }
  }

  /** No earlier record of `s` has the code of `s[i]`. */
  predicate IsFirst(s: seq<Detection>, i: nat)
    requires i < |s|
  {
    forall j :: 0 <= j < i ==> s[j].awb != s[i].awb
  }

  /** Deduplicating one more record keeps everything kept so far. */
  lemma DedupeExtends(s: seq<Detection>)
    requires s != []
    ensures forall y :: y in Dedupe(s[..|s| - 1]) ==> y in Dedupe(s)
  {
  }

  /** The last record is kept when it is the first with its code. */
  lemma DedupeKeepsLastFirst(s: seq<Detection>)
    requires s != [] && IsFirst(s, |s| - 1)
    ensures s[|s| - 1] in Dedupe(s)
  {
    var init := s[..|s| - 1];
    var x := s[|s| - 1];
    DedupeDistinct(init);
    forall k | 0 <= k < |init| ensures init[k].awb != x.awb {
      assert init[k] == s[k];
    }
    assert x.awb !in AwbsOf(init);
    assert Dedupe(s) == Dedupe(init) + [x];
  }

  /** Every record that is the first with its code is kept. */
  lemma {:induction false} DedupeKeepsFirst(s: seq<Detection>)
    ensures forall i :: 0 <= i < |s| && IsFirst(s, i) ==> s[i] in Dedupe(s)
  {
    if s != [] {
      var n := |s| - 1;
      var init := s[..n];
      DedupeKeepsFirst(init);
      DedupeExtends(s);
      if IsFirst(s, n) {
        DedupeKeepsLastFirst(s);
      }
      forall i | 0 <= i < n && IsFirst(s, i) ensures s[i] in Dedupe(s) {
        FirstInInit(s, i);
      }
    }
  }

  /** A record first with its code stays first when the last record is dropped. */
  lemma FirstInInit(s: seq<Detection>, i: nat)
    requires i < |s| - 1 && IsFirst(s, i)
    ensures IsFirst(s[..|s| - 1], i) && s[..|s| - 1][i] == s[i]
  {
    var init := s[..|s| - 1];
    assert forall j :: 0 <= j <= i ==> s[j] == init[j];
  }

  /** Every kept record is the first with its code. */
  lemma {:induction false} DedupeKeepsOnlyFirst(s: seq<Detection>)
    ensures forall x :: x in Dedupe(s) ==> exists i :: 0 <= i < |s| && s[i] == x && IsFirst(s, i)
  {
    if s != [] {
      var n := |s| - 1;
      var init := s[..n];
      var x := s[n];
      DedupeKeepsOnlyFirst(init);
      DedupeDistinct(init);
      var prev := Dedupe(init);
      forall y | y in Dedupe(s) ensures exists i :: 0 <= i < |s| && s[i] == y && IsFirst(s, i) {
        if y in prev {
          var i :| 0 <= i < |init| && init[i] == y && IsFirst(init, i);
          assert forall j :: 0 <= j <= i ==> s[j] == init[j];
          assert s[i] == y && IsFirst(s, i);
        } else {
          assert y == x && x.awb !in AwbsOf(init);
          forall j | 0 <= j < n ensures s[j].awb != x.awb {
            assert s[j] == init[j];
            assert init[j].awb in AwbsOf(init);
          }
          assert IsFirst(s, n);
        }
      }
    }
  }

  /** A list without repeated codes is its own deduplication. */
  lemma {:induction false} DedupeOfDistinct(s: seq<Detection>)
    requires forall i, j :: 0 <= i < j < |s| ==> s[i].awb != s[j].awb
    ensures Dedupe(s) == s
  {
    if s != [] {
      var init := s[..|s| - 1];
      DedupeOfDistinct(init);
      forall k | 0 <= k < |init| ensures init[k].awb != s[|s| - 1].awb {
        assert init[k] == s[k];
      }
      assert s[|s| - 1].awb !in AwbsOf(init);
      assert init + [s[|s| - 1]] == s;
    }
  }

  /** `_remove_duplicates` is idempotent. */
  lemma DedupeIdempotent(s: seq<Detection>)
    ensures Dedupe(Dedupe(s)) == Dedupe(s)
  {
    DedupeDistinct(s);
    DedupeOfDistinct(Dedupe(s));
  }

  /** Deduplicating a concatenation starts with the deduplicated first part. */
  lemma {:induction false} DedupeConcatPrefix(a: seq<Detection>, b: seq<Detection>)
    ensures |Dedupe(a)| <= |Dedupe(a + b)| && Dedupe(a + b)[..|Dedupe(a)|] == Dedupe(a)
    decreases |b|
  {
    if b == [] {
      assert a + b == a;
    } else {
      var b0 := b[..|b| - 1];
      DedupeConcatPrefix(a, b0);
      assert (a + b)[..|a + b| - 1] == a + b0;
    }
  }

  // ---------------------------------------------------------------- compiling the registry

  predicate Enabled(d: PatternData) {
    d.enabled.GetOr(true)
  }

  /** `_compile_patterns`: the enabled carriers, in registry order, each with its patterns. */
  function CompiledSpec(reg: Registry): seq<Compiled>
  {
    if reg == [] then []
    else
      var c := reg[|reg| - 1];
      CompiledSpec(reg[..|reg| - 1])
      + if Enabled(c.data) then [Compiled(c.code, c.data.patterns.GetOr([]))] else []
  }

  /** A carrier is compiled exactly when its `enabled` flag is true or absent. */
  lemma {:induction false} CompiledMembers(reg: Registry)
    ensures forall c :: c in CompiledSpec(reg) <==>
      exists i :: 0 <= i < |reg| && Enabled(reg[i].data) && c == Compiled(reg[i].code, reg[i].data.patterns.GetOr([]))
  {
    if reg != [] {
      var init := reg[..|reg| - 1];
      CompiledMembers(init);
      assert forall i :: 0 <= i < |init| ==> reg[i] == init[i];
    }
  }

  /** Compiling a leading part of the registry gives a leading part of the compiled list, so the
      compiled carriers keep their registry order. */
  lemma {:induction false} CompiledOrder(reg: Registry, n: nat)
    requires n <= |reg|
    ensures CompiledSpec(reg[..n]) <= CompiledSpec(reg)
    decreases |reg| - n
  {
    if n < |reg| {
      var init := reg[..|reg| - 1];
      CompiledOrder(init, n);
      assert init[..n] == reg[..n];
    } else {
      assert reg[..n] == reg;
    }
  }

  /** With no compiled carriers no line yields a record. */
  lemma {:induction false} LinesNoCarriers(env: Env, lines: seq<string>, n: nat)
    requires n <= |lines|
    ensures LinesSpec(env, [], lines, n) == []
  {
    if n > 0 {
      LinesNoCarriers(env, lines, n - 1);
    }
  }

  /** A pattern file that cannot be read compiles to nothing, so regex search finds nothing. */
  lemma UnreadableFileNoMatches(ora: Oracles, text: TextArg, location: string)
    ensures CompiledSpec(RegOf(LoadPatterns(None))) == []
    ensures SearchSpec(LoadPatterns(None), CompiledSpec(RegOf(LoadPatterns(None))), ora, text, location) == []
  {
    if TextTruthy(text) {
      var lines := Split(CleanText(text), "\n");
      LinesNoCarriers(Env(RegOf(LoadPatterns(None)), ora, CleanText(text), location), lines, |lines|);
    }
  }

  // ---------------------------------------------------------------- whole mails

  /** The argument of `find_all_awbs`: a string, a dictionary with optional `subject` and `body`
      entries, or any other value (whose `.get` raises). */
  datatype MailArg = TextMail(text: string) | DictMail(subject: Option<TextArg>, body: Option<TextArg>) | OtherArg

  /** The AI analysis when a client is configured and answered: the codes it reported and its
      confidence. */
  datatype AiReply = AiReply(awbNumbers: seq<string>, confidence: real)

  /** The entry appended for a code reported by the AI analysis. */
  function AiEntry(awb: string, confidence: real): (d: Detection)
    ensures d.awb == awb && d.matchText == awb && d.lineNumber == 0 && d.context.None?
  {
    Detection(awb, "UNKNOWN", awb, confidence, None, 0, "AI Analiz")
  }

  function AiEntries(reply: AiReply): (r: seq<Detection>)
    ensures |r| == |reply.awbNumbers|
    ensures forall k :: 0 <= k < |r| ==> r[k] == AiEntry(reply.awbNumbers[k], reply.confidence)
    decreases |reply.awbNumbers|
  {
    if reply.awbNumbers == [] then []
    else
      var init := AiReply(reply.awbNumbers[..|reply.awbNumbers| - 1], reply.confidence);
      AiEntries(init) + [AiEntry(reply.awbNumbers[|reply.awbNumbers| - 1], reply.confidence)]
  }

  /** `mail_data.get("subject", "")` and `mail_data.get("body", "")`, after a string argument was
      wrapped as the body. */
  function SubjectOf(mail: MailArg): TextArg
    requires !mail.OtherArg?
  {
    match mail
    case TextMail(_) => Text("")
    case DictMail(subject, _) => subject.GetOr(Text(""))
  }

  function BodyOf(mail: MailArg): TextArg
    requires !mail.OtherArg?
  {
    match mail
    case TextMail(t) => Text(t)
    case DictMail(_, body) => body.GetOr(Text(""))
  }

  /** `find_all_awbs`. */
  function FindAllSpec(file: PatternFile, compiled: seq<Compiled>, ora: Oracles, mail: MailArg, ai: Option<AiReply>)
    : seq<Detection>
  {
    if mail.OtherArg? then []
    else
      var unique := Dedupe(SearchSpec(file, compiled, ora, SubjectOf(mail), "subject")
                           + SearchSpec(file, compiled, ora, BodyOf(mail), "body"));
      if unique == [] && ai.Some? then AiEntries(ai.value) else unique
  }

  /** The deduplicated subject records come first, AI entries appear only when the text search
      found nothing, and a non-mapping argument yields `[]`. */
  lemma FindAllShape(file: PatternFile, compiled: seq<Compiled>, ora: Oracles, mail: MailArg, ai: Option<AiReply>)
    ensures mail.OtherArg? ==> FindAllSpec(file, compiled, ora, mail, ai) == []
    ensures !mail.OtherArg? ==>
      var subj := SearchSpec(file, compiled, ora, SubjectOf(mail), "subject");
      var body := SearchSpec(file, compiled, ora, BodyOf(mail), "body");
      var r := FindAllSpec(file, compiled, ora, mail, ai);
      (subj + body == [] && ai.Some? ==> r == AiEntries(ai.value))
      && (subj + body != [] || ai.None? ==>
            r == Dedupe(subj + body) && |Dedupe(subj)| <= |r| && r[..|Dedupe(subj)|] == Dedupe(subj)
            && forall i, j :: 0 <= i < j < |r| ==> r[i].awb != r[j].awb)
  {
    if !mail.OtherArg? {
      var subj := SearchSpec(file, compiled, ora, SubjectOf(mail), "subject");
      var body := SearchSpec(file, compiled, ora, BodyOf(mail), "body");
      DedupeConcatPrefix(subj, body);
      DedupeDistinct(subj + body);
      if subj + body != [] {
        assert (subj + body)[0].awb in AwbsOf(subj + body);
      }
    }
  }

  /** A string argument is searched as the body, under an empty subject. */
  lemma FindAllWrapsText(file: PatternFile, compiled: seq<Compiled>, ora: Oracles, text: string, ai: Option<AiReply>)
    ensures FindAllSpec(file, compiled, ora, TextMail(text), ai)
         == FindAllSpec(file, compiled, ora, DictMail(Some(Text("")), Some(Text(text))), ai)
  {
  }

  /** The detector: the loaded pattern file and the compiled carriers. */
  class Detector {
    var patterns: PatternFile
    var compiled: seq<Compiled>

    /** `__init__`: load the pattern file (`None` when it cannot be read) and compile it. */
    constructor (parsed: Option<PatternFile>)
      ensures patterns == LoadPatterns(parsed)
      ensures compiled == CompiledSpec(RegOf(patterns))
    {
      patterns := LoadPatterns(parsed);
      compiled := [];
      new;
      CompilePatterns();
    }

    /** `_compile_patterns`. */
    method CompilePatterns()
      modifies this
      ensures patterns == old(patterns)
      ensures compiled == CompiledSpec(RegOf(patterns))
    {
      var reg := RegOf(patterns);
      compiled := [];
      var i := 0;
      while i < |reg|
        invariant 0 <= i <= |reg|
        invariant patterns == old(patterns)
        invariant compiled == CompiledSpec(reg[..i])
      {
        assert reg[..i + 1][..i] == reg[..i];
        if Enabled(reg[i].data) {
          compiled := compiled + [Compiled(reg[i].code, reg[i].data.patterns.GetOr([]))];
        }
        i := i + 1;
      }
      assert reg[..i] == reg;
    }

    /** The innermost loop body of `_search_text`. */
    method ProcessMatch(env: Env, line: string, lineNo: int, airline: string, minConf: real, m: RegexMatch)
      returns (d: Option<Detection>)
      ensures d == DetectMatch(env, line, lineNo, airline, minConf, m)
    {
      var norm := NormalizeAwb(m, airline);
      var valid := ValidateAwb(norm, env.reg, airline);
      if valid != Ok(true) {
        return None;
      }
      var matched, fuzzyConf := FuzzyMatcher.FindBestMatch(env.ora.ratio, norm.value, [m.text], minConf);
      var base := CalculateConfidence(m.text, line);
      var useFuzzy := matched.Some? && matched.value != "";
      var conf := if useFuzzy then fuzzyConf else base;
      var text := if useFuzzy then matched.value else m.text;
      if conf >= minConf {
        d := Some(Detection(norm.value, airline, text, conf, Some(EnhancedContext(env.clean, line, m.start, lineNo)),
                            lineNo, env.location));
      } else {
        d := None;
      }
    }

    /** The records of one pattern's matches. */
    method SearchPattern(env: Env, line: string, lineNo: int, airline: string, minConf: real, ms: seq<RegexMatch>)
      returns (results: seq<Detection>)
      ensures results == MatchesSpec(env, line, lineNo, airline, minConf, ms)
    {
      results := [];
      var mi := 0;
      while mi < |ms|
        invariant 0 <= mi <= |ms|
        invariant results == MatchesSpec(env, line, lineNo, airline, minConf, ms[..mi])
      {
        var d := ProcessMatch(env, line, lineNo, airline, minConf, ms[mi]);
        assert ms[..mi + 1][..mi] == ms[..mi];
        if d.Some? {
          results := results + [d.value];
        }
        mi := mi + 1;
      }
      assert ms[..mi] == ms;
    }

    /** The records of one carrier's patterns. */
    method SearchCarrier(env: Env, line: string, lineNo: int, airline: string, minConf: real, pats: seq<string>)
      returns (results: seq<Detection>)
      ensures results == PatternsSpec(env, line, lineNo, airline, minConf, pats)
    {
      results := [];
      var pi := 0;
      while pi < |pats|
        invariant 0 <= pi <= |pats|
        invariant results == PatternsSpec(env, line, lineNo, airline, minConf, pats[..pi])
      {
        var found := SearchPattern(env, line, lineNo, airline, minConf, env.ora.finditer(pats[pi], line));
        assert pats[..pi + 1][..pi] == pats[..pi];
        results := results + found;
        pi := pi + 1;
      }
      assert pats[..pi] == pats;
    }

    /** The records of one line, carrier by carrier. */
    method SearchLine(env: Env, line: string, lineNo: int) returns (results: seq<Detection>)
      ensures results == CarriersSpec(env, line, lineNo, compiled)
    {
      results := [];
      var ci := 0;
      while ci < |compiled|
        invariant 0 <= ci <= |compiled|
        invariant results == CarriersSpec(env, line, lineNo, compiled[..ci])
      {
        var airline := compiled[ci].code;
        var found := SearchCarrier(env, line, lineNo, airline, MinConfidence(env.reg, airline), compiled[ci].patterns);
        assert compiled[..ci + 1][..ci] == compiled[..ci];
        results := results + found;
        ci := ci + 1;
      }
      assert compiled[..ci] == compiled;
    }

    /** The records of the lines of a text, numbered from 1. */
    method SearchLines(env: Env, lines: seq<string>) returns (results: seq<Detection>)
      ensures results == LinesSpec(env, compiled, lines, |lines|)
    {
      results := [];
      var li := 0;
      while li < |lines|
        invariant 0 <= li <= |lines|
        invariant results == LinesSpec(env, compiled, lines, li)
      {
        var found := SearchLine(env, lines[li], li + 1);
        LinesSpecStep(env, compiled, lines, li);
        results := results + found;
        li := li + 1;
      }
    }

    /** `_search_text(text, location)`. */
    method SearchText(ora: Oracles, text: TextArg, location: string) returns (results: seq<Detection>)
      ensures results == SearchSpec(patterns, compiled, ora, text, location)
    {
      if !TextTruthy(text) {
        return [];
      }
      var clean := CleanText(text);
      var lines := Split(clean, "\n");
      results := SearchLines(Env(RegOf(patterns), ora, clean, location), lines);
    }

    /** `find_all_awbs(mail_data)`; `ai` is the AI analysis, `None` when no client is configured
        or it reported no code. */
    method FindAllAwbs(ora: Oracles, mail: MailArg, ai: Option<AiReply>) returns (r: seq<Detection>)
      ensures r == FindAllSpec(patterns, compiled, ora, mail, ai)
    {
      if mail.OtherArg? {
        return [];
      }
      var subjectResults := SearchText(ora, SubjectOf(mail), "subject");
      var bodyResults := SearchText(ora, BodyOf(mail), "body");
      r := RemoveDuplicates(subjectResults + bodyResults);
      if r == [] && ai.Some? {
        var numbers := ai.value.awbNumbers;
        var i := 0;
        while i < |numbers|
          invariant 0 <= i <= |numbers|
          invariant r == AiEntries(AiReply(numbers[..i], ai.value.confidence))
        {
          assert numbers[..i + 1][..i] == numbers[..i];
          r := r + [AiEntry(numbers[i], ai.value.confidence)];
          i := i + 1;
        }
        assert numbers[..i] == numbers;
      }
    }
  }
}
