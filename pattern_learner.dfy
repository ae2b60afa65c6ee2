/** The pattern learner: it finds the carrier patterns' matches in a text, turns the words around
    each match into a new pattern, counts how often each such pattern is produced, and on saving
    cuts every carrier back to its first two patterns. */
module PatternLearner {
  import opened Wrappers
  import opened PyStr
  import opened Registry
  import AwbDetector

  // ---------------------------------------------------------------- words around a match

  /** A character that `\w` does not match. */
  predicate NotWordChar(c: char) {
    !IsWordChar(c)
  }

  /** The length of the run of word characters at the head of `s`. */
  function WordRun(s: string): (r: nat)
    ensures r <= |s|
    ensures forall k :: 0 <= k < r ==> IsWordChar(s[k])
    ensures r < |s| ==> !IsWordChar(s[r])
    decreases |s|
  {
    if s == [] || !IsWordChar(s[0]) then 0 else 1 + WordRun(s[1..])
  }

  /** `re.findall(r'\b\w+\b', s)`: the maximal runs of word characters, left to right. */
  function Words(s: string): (r: seq<string>)
    ensures forall w :: w in r ==> w != [] && forall k :: 0 <= k < |w| ==> IsWordChar(w[k])
    decreases |s|
  {
    if s == [] then []
    else if !IsWordChar(s[0]) then Words(s[1..])
    else
      var n := WordRun(s);
      [s[..n]] + Words(s[n..])
  }

  function Concat(ws: seq<string>): string {
    if ws == [] then "" else ws[0] + Concat(ws[1..])
  }

  /** Deleting characters from two texts glued together deletes them from each. */
  lemma {:induction false} RemoveCharsAppend(a: string, b: string, drop: char -> bool)
    ensures RemoveChars(a + b, drop) == RemoveChars(a, drop) + RemoveChars(b, drop)
    decreases |a|
  {
    if a == [] {
      assert a + b == b;
    } else {
      assert (a + b)[1..] == a[1..] + b;
      RemoveCharsAppend(a[1..], b, drop);
    }
  }

  lemma KeptUnchanged(kept: string, drop: char -> bool)
    requires forall k :: 0 <= k < |kept| ==> !drop(kept[k])
    ensures RemoveChars(kept, drop) == kept
  {
  }

  lemma RemoveCharsKeepPrefix(s: string, n: nat, drop: char -> bool)
    requires n <= |s|
    requires forall k :: 0 <= k < n ==> !drop(s[k])
    ensures RemoveChars(s, drop) == s[..n] + RemoveChars(s[n..], drop)
  {
    KeptUnchanged(s[..n], drop);
    RemoveCharsAppend(s[..n], s[n..], drop);
    assert s[..n] + s[n..] == s;
  }

  /** The words are the text's word characters, in order, and nothing else: gluing them
      together is the text with every other character deleted. */
  lemma {:induction false} WordsCover(s: string)
    ensures Concat(Words(s)) == RemoveChars(s, NotWordChar)
    decreases |s|
  {
    if s != [] {
      if !IsWordChar(s[0]) {
        WordsCover(s[1..]);
      } else {
        var n := WordRun(s);
        RemoveCharsKeepPrefix(s, n, NotWordChar);
        WordsCover(s[n..]);
      }
    }
  }

  /** The length of the head run is fixed by its two properties. */
  lemma {:induction false} WordRunUnique(s: string, r: nat)
    requires r <= |s|
    requires forall k :: 0 <= k < r ==> IsWordChar(s[k])
    requires r < |s| ==> !IsWordChar(s[r])
    ensures WordRun(s) == r
    decreases |s|
  {
    if s != [] && IsWordChar(s[0]) {
      assert r > 0;
      WordRunUnique(s[1..], r - 1);
    }
  }

  /** A non-empty run of word characters is one word. */
  lemma WordsOfWord(w: string)
    requires w != [] && forall k :: 0 <= k < |w| ==> IsWordChar(w[k])
    ensures Words(w) == [w]
  {
    WordRunUnique(w, |w|);
    assert w[..|w|] == w && w[|w|..] == [];
  }

  /** Words never span a non-word character: the words of a text split at one are the words
      before it followed by the words after it. With `WordsOfWord`, this makes every word a
      maximal run. */
  lemma {:induction false} WordsSplit(a: string, c: char, b: string)
    requires !IsWordChar(c)
    ensures Words(a + [c] + b) == Words(a) + Words(b)
    decreases |a|
  {
    var s := a + [c] + b;
    if a == [] {
      assert s[1..] == b;
    } else if !IsWordChar(a[0]) {
      assert s[1..] == a[1..] + [c] + b;
      WordsSplit(a[1..], c, b);
    } else {
      var m := WordRun(a);
      assert forall k :: 0 <= k < m ==> s[k] == a[k];
      assert s[m] == if m < |a| then a[m] else c;
      WordRunUnique(s, m);
      assert s[..m] == a[..m];
      assert s[m..] == a[m..] + [c] + b;
      WordsSplit(a[m..], c, b);
    }
  }

  /** `words[-3:]`. */
  function LastThree(ws: seq<string>): (r: seq<string>)
    ensures |r| == if |ws| <= 3 then |ws| else 3
    ensures r == ws[|ws| - |r|..]
  {
    if |ws| <= 3 then ws else ws[|ws| - 3..]
  }

  /** `words[:3]`. */
  function FirstThree(ws: seq<string>): (r: seq<string>)
    ensures |r| == if |ws| <= 3 then |ws| else 3
    ensures r == ws[..|r|]
  {
    if |ws| <= 3 then ws else ws[..3]
  }

  // ---------------------------------------------------------------- building a pattern

  /** The words `filter_html_css` drops, compared with the lower-cased word. `Subject` is
      written with a capital letter, so no lower-cased word ever equals it. */
  const HtmlCss: set<string> :=
    {"span", "div", "p", "b", "h3", "color", "serif", "black", "none", "mso", "ligatures", "Subject"}

  /** `filter_html_css`: the words whose lower-cased form is not in `HtmlCss`, in order. */
  function FilterHtmlCss(ws: seq<string>): (r: seq<string>)
    ensures |r| <= |ws|
    ensures forall w :: w in r <==> w in ws && Lower(w) !in HtmlCss
  {
    if ws == [] then []
    else (if Lower(ws[0]) in HtmlCss then [] else [ws[0]]) + FilterHtmlCss(ws[1..])
  }

  /** The word `Subject` survives the filter, because its lower-cased form is `subject`. */
  lemma SubjectKept(ws: seq<string>)
    requires "Subject" in ws
    ensures "Subject" in FilterHtmlCss(ws)
  {
    var low := Lower("Subject");
    assert low[0] == 's';
    assert low != "Subject";
    assert low == "subject";
  }

  /** `re.match(r'^\d{3}-?\d{8}$', m)` without the optional newline: three digits, an optional
      hyphen and eight digits. */
  predicate AwbBody(m: string) {
    (|m| == 11 && forall k :: 0 <= k < 11 ==> IsDigit(m[k]))
    || (|m| == 12 && m[3] == '-' && forall k :: 0 <= k < 12 && k != 3 ==> IsDigit(m[k]))
  }

  /** The whole test, where `$` also accepts one newline at the very end. */
  predicate AwbShape(m: string) {
    AwbBody(m) || (|m| > 0 && m[|m| - 1] == '\n' && AwbBody(m[..|m| - 1]))
  }

  /** `len(re.findall(r'\d', m))`. */
  function CountDigits(m: string): (r: nat)
    ensures r <= |m|
  {
    if m == [] then 0 else (if IsDigit(m[0]) then 1 else 0) + CountDigits(m[1..])
  }

  /** What follows the three-digit carrier prefix in a pattern learnt from an AWB-shaped match:
      optional separators, then two groups of four digits with an optional separator. */
  const AwbTail: string := "[-\\s]*(\\d{4}[\\s-]?\\d{4})"

  /** `(?:w1|w2|...)`: a non-capturing alternation of the words. */
  function Alternation(ws: seq<string>): string {
    "(?:" + Join("|", ws) + ")"
  }

  /** `\d{n}`. */
  function DigitRun(n: nat): string {
    "\\d{" + NatToString(n) + "}"
  }

  /** The part of a general pattern before its digit run: `(?:w1|...)\s*` of the kept words
      before the match, or nothing when none is kept. */
  function PreAlt(pre: seq<string>): string {
    var kept := FilterHtmlCss(pre);
    if kept != [] then Alternation(kept) + "\\s*" else ""
  }

  /** The part of a general pattern after its digit run: `\s*(?:w1|...)` of the kept words after
      the match, or nothing when none is kept. */
  function PostAlt(post: seq<string>): string {
    var kept := FilterHtmlCss(post);
    if kept != [] then "\\s*" + Alternation(kept) else ""
  }

  /** `_create_pattern`. */
  function CreatePattern(m: string, pre: seq<string>, post: seq<string>): string {
    if AwbShape(m) then m[..3] + AwbTail
    else PreAlt(pre) + DigitRun(CountDigits(m)) + PostAlt(post)
  }

  /** An AWB-shaped match yields the same pattern whatever surrounds it: the carrier prefix of the
      match followed by the fixed tail. */
  lemma CreatePatternAwb(m: string, pre: seq<string>, post: seq<string>)
    requires AwbShape(m)
    ensures CreatePattern(m, pre, post) == CreatePattern(m, [], [])
    ensures CreatePattern(m, pre, post) == m[..3] + AwbTail
    ensures StartsWith(CreatePattern(m, pre, post), m[..3])
    ensures forall k :: 0 <= k < 3 ==> IsDigit(CreatePattern(m, pre, post)[k])
  {
    var r := CreatePattern(m, pre, post);
    assert r[..3] == m[..3];
    if !AwbBody(m) {
      assert m[..|m| - 1][..3] == m[..3];
    }
  }

  /** Any other match yields a digit run as long as the match's digit count, preceded by an
      alternation of the kept words before it and followed by an alternation of the kept words
      after it, each only when there are such words. */
  lemma CreatePatternGeneral(m: string, pre: seq<string>, post: seq<string>)
    requires !AwbShape(m)
    ensures var r := CreatePattern(m, pre, post);
      StartsWith(r, PreAlt(pre) + DigitRun(CountDigits(m))) && EndsWith(r, PostAlt(post))
      && (FilterHtmlCss(pre) == [] ==> StartsWith(r, DigitRun(CountDigits(m))))
      && (FilterHtmlCss(post) == [] ==> EndsWith(r, DigitRun(CountDigits(m))))
      && (FilterHtmlCss(pre) == [] && FilterHtmlCss(post) == [] ==> r == DigitRun(CountDigits(m)))
  {
    var a, d, b := PreAlt(pre), DigitRun(CountDigits(m)), PostAlt(post);
    assert CreatePattern(m, pre, post) == a + d + b;
    Pieces(a, d, b);
    if FilterHtmlCss(pre) == [] {
      assert a + d == d;
    }
    if FilterHtmlCss(post) == [] {
      assert a + d + b == a + d;
    }
  }

  /** The two optional parts: before the digit run, the alternation of the kept words followed by
      `\s*`; after it, `\s*` followed by the alternation, which ends with `)`. */
  lemma AltShapes(pre: seq<string>, post: seq<string>)
    ensures FilterHtmlCss(pre) != [] ==> PreAlt(pre) == Alternation(FilterHtmlCss(pre)) + "\\s*"
    ensures FilterHtmlCss(post) != [] ==>
      PostAlt(post) == "\\s*" + Alternation(FilterHtmlCss(post)) && PostAlt(post)[|PostAlt(post)| - 1] == ')'
    ensures FilterHtmlCss(pre) == [] ==> PreAlt(pre) == ""
    ensures FilterHtmlCss(post) == [] ==> PostAlt(post) == ""
  {
  }

  /** A text glued from three pieces starts with the first two and ends with the last. */
  lemma Pieces(a: string, d: string, b: string)
    ensures StartsWith(a + d + b, a + d) && EndsWith(a + d + b, b)
    ensures b == [] ==> EndsWith(a + d + b, d)
  {
    assert (a + d + b)[..|a + d|] == a + d;
    assert (a + d + b)[|a + d|..] == b;
    if b == [] {
      assert a + d + b == a + d;
      assert (a + d)[|a|..] == d;
    }
  }

  /** The words of a match's surroundings that end up in its pattern: the last three before it
      and the first three after it. */
  function ContextPattern(preText: string, postText: string, m: string): string {
    CreatePattern(m, LastThree(Words(preText)), FirstThree(Words(postText)))
  }

  /** Only the last three words before and the first three words after the match matter. */
  lemma ContextPatternLocal(pre1: string, post1: string, pre2: string, post2: string, m: string)
    requires LastThree(Words(pre1)) == LastThree(Words(pre2))
    requires FirstThree(Words(post1)) == FirstThree(Words(post2))
    ensures ContextPattern(pre1, post1, m) == ContextPattern(pre2, post2, m)
  {
  }

  // ---------------------------------------------------------------- counting learnt patterns

  /** `learned_patterns[p]` of a `defaultdict(int)`. */
  function CountOf(learned: map<string, nat>, p: string): nat {
    if p in learned then learned[p] else 0
  }

  /** `learned_patterns[p] += 1`. */
  function Bump(learned: map<string, nat>, p: string): (r: map<string, nat>)
    ensures r.Keys == learned.Keys + {p}
    ensures CountOf(r, p) == CountOf(learned, p) + 1
    ensures forall q :: q != p ==> CountOf(r, q) == CountOf(learned, q)
  {
    learned[p := CountOf(learned, p) + 1]
  }

  /** The counter after one `+= 1` per pattern of `ps`, in order. */
  function Tally(learned: map<string, nat>, ps: seq<string>): map<string, nat> {
    if ps == [] then learned else Bump(Tally(learned, ps[..|ps| - 1]), ps[|ps| - 1])
  }

  /** How many times `p` occurs in `ps`. */
  function Occurrences(ps: seq<string>, p: string): nat {
    if ps == [] then 0 else Occurrences(ps[..|ps| - 1], p) + (if ps[|ps| - 1] == p then 1 else 0)
  }

  /** Each pattern's count goes up by the number of times it was produced, the counter gains
      exactly the produced patterns as keys, and nothing else changes. */
  lemma {:induction false} TallyCounts(learned: map<string, nat>, ps: seq<string>)
    ensures Tally(learned, ps).Keys == learned.Keys + set p | p in ps
    ensures forall p :: CountOf(Tally(learned, ps), p) == CountOf(learned, p) + Occurrences(ps, p)
    decreases |ps|
  {
    if ps != [] {
      var init := ps[..|ps| - 1];
      TallyCounts(learned, init);
      assert (set p | p in ps) == (set p | p in init) + {ps[|ps| - 1]} by {
        forall p | p in ps ensures p in init || p == ps[|ps| - 1] {
          var k :| 0 <= k < |ps| && ps[k] == p;
          if k < |ps| - 1 {
            assert init[k] == p;
          }
        }
      }
    }
  }

  /** A counter that was bumped at least once is non-empty, which is what makes the learner save. */
  lemma TallyNonEmpty(learned: map<string, nat>, ps: seq<string>)
    requires ps != []
    ensures |Tally(learned, ps)| > 0
  {
    var t := Tally(learned, ps);
    assert ps[|ps| - 1] in t.Keys;
  }

  // ---------------------------------------------------------------- what saving keeps

  /** `patterns[:2]`. */
  function FirstTwo(ps: seq<string>): (r: seq<string>)
    ensures |r| <= 2 && |r| <= |ps| && r == ps[..|r|]
    ensures |ps| <= 2 ==> r == ps
  {
    if |ps| <= 2 then ps else ps[..2]
  }

  /** The index of the first carrier whose entry has no `"patterns"` key, or the number of
      carriers when every entry has one. */
  function FirstWithoutPatterns(reg: Registry): (r: nat)
    ensures r <= |reg|
    ensures forall k :: 0 <= k < r ==> reg[k].data.patterns.Some?
    ensures r < |reg| ==> reg[r].data.patterns.None?
  {
    if reg == [] || reg[0].data.patterns.None? then 0 else 1 + FirstWithoutPatterns(reg[1..])
  }

  /** The carriers before index `n` cut back to their first two patterns; the others as they were. */
  function TruncateUpTo(reg: Registry, n: nat): (r: Registry)
    ensures |r| == |reg|
  {
    seq(|reg|, k requires 0 <= k < |reg| =>
      if k < n && reg[k].data.patterns.Some?
      then reg[k].(data := reg[k].data.(patterns := Some(FirstTwo(reg[k].data.patterns.value))))
      else reg[k])
  }

  /** `save_learned_patterns` on the in-memory file and the stored file: without a `"patterns"` key
      nothing happens; otherwise the carriers are cut back in order until one without a
      `"patterns"` key raises `KeyError`, and the file is written only when none did and opening
      and writing it succeeds (`written`). A failed write is caught and leaves the stored file as
      it was, while the in-memory carriers stay cut back. */
  function SaveSpec(file: PatternFile, stored: Option<PatternFile>, written: bool): (PatternFile, Option<PatternFile>) {
    match file.patterns
    case None => (file, stored)
    case Some(reg) =>
      var n := FirstWithoutPatterns(reg);
      var file' := PatternFile(Some(TruncateUpTo(reg, n)));
      (file', if n == |reg| && written then Some(file') else stored)
  }

  /** What saving does to the carriers: their names and order stay, every carrier before the
      first one without patterns keeps only its first two patterns, the rest are untouched, and
      the file is written exactly when every carrier has patterns and the write succeeds, with at
      most two patterns each; a failed write changes only the in-memory carriers. */
  lemma SaveSpecEffect(file: PatternFile, stored: Option<PatternFile>, written: bool)
    requires file.patterns.Some?
    ensures var reg := file.patterns.value;
      var (file', stored') := SaveSpec(file, stored, written);
      var n := FirstWithoutPatterns(reg);
      file'.patterns.Some? && |file'.patterns.value| == |reg|
      && (forall k :: 0 <= k < |reg| ==> file'.patterns.value[k].code == reg[k].code)
      && (forall k :: 0 <= k < n ==>
            var ps := reg[k].data.patterns.value;
            var ps' := file'.patterns.value[k].data.patterns;
            ps'.Some? && |ps'.value| <= 2 && |ps'.value| <= |ps| && ps'.value == ps[..|ps'.value|]
            && (|ps| >= 2 ==> |ps'.value| == 2)
            && file'.patterns.value[k].data.(patterns := None) == reg[k].data.(patterns := None))
      && (forall k :: n <= k < |reg| ==> file'.patterns.value[k] == reg[k])
      && (stored' != stored ==> written && stored' == Some(file'))
      && (!written ==> stored' == stored)
      && (stored'.Some? && stored' != stored ==> forall k :: 0 <= k < |reg| ==>
            |file'.patterns.value[k].data.patterns.value| <= 2)
      && (written && (forall k :: 0 <= k < |reg| ==> reg[k].data.patterns.Some?) ==> stored' == Some(file'))
  {
    var reg := file.patterns.value;
    var n := FirstWithoutPatterns(reg);
    if forall k :: 0 <= k < |reg| ==> reg[k].data.patterns.Some? {
      assert n == |reg|;
    }
  }

  /** Saving twice leaves the pattern file as saving once does. */
  lemma SaveIdempotent(file: PatternFile, stored: Option<PatternFile>, w1: bool, w2: bool)
    ensures SaveSpec(SaveSpec(file, stored, w1).0, stored, w2).0 == SaveSpec(file, stored, w1).0
  {
    if file.patterns.Some? {
      var reg := file.patterns.value;
      var n := FirstWithoutPatterns(reg);
      var reg' := TruncateUpTo(reg, n);
      FirstWithoutPreserved(reg, n);
      assert FirstWithoutPatterns(reg') == n;
      assert TruncateUpTo(reg', n) == reg';
    }
  }

  lemma FirstWithoutPreserved(reg: Registry, n: nat)
    requires n == FirstWithoutPatterns(reg)
    ensures FirstWithoutPatterns(TruncateUpTo(reg, n)) == n
  {
    var reg' := TruncateUpTo(reg, n);
    assert forall k :: 0 <= k < n ==> reg'[k].data.patterns.Some?;
    assert n < |reg| ==> reg'[n] == reg[n];
    FirstWithoutUnique(reg', n);
  }

  /** The index `FirstWithoutPatterns` returns is the only one with its two properties. */
  lemma {:induction false} FirstWithoutUnique(reg: Registry, m: nat)
    requires m <= |reg|
    requires forall k :: 0 <= k < m ==> reg[k].data.patterns.Some?
    requires m < |reg| ==> reg[m].data.patterns.None?
    ensures FirstWithoutPatterns(reg) == m
    decreases |reg|
  {
    if reg != [] && reg[0].data.patterns.Some? {
      FirstWithoutUnique(reg[1..], m - 1);
    }
  }

  // ---------------------------------------------------------------- collecting the matches

  /** A match object of `re.finditer`: where it starts and ends, and `match.group()`. */
  datatype PatternMatch = PatternMatch(start: nat, end: nat, group: string)

  /** `re.finditer(pattern, text, re.IGNORECASE)`, given by the caller. */
  type Finditer = (string, string) -> seq<PatternMatch>

  /** One entry of `known_patterns`. */
  datatype Known = Known(pattern: string, matched: string, airline: string, preText: string, postText: string)

  const Window: nat := 50

  /** The entry for one match: up to 50 characters on either side of it. */
  function KnownOf(text: string, airline: string, pattern: string, m: PatternMatch): (k: Known)
    ensures |k.preText| <= Window && |k.postText| <= Window
    ensures k.pattern == pattern && k.airline == airline && k.matched == m.group
    ensures m.start <= |text| ==> k.preText == text[(if m.start >= Window then m.start - Window else 0)..m.start]
    ensures m.end <= |text| ==> k.postText == text[m.end..(if m.end + Window <= |text| then m.end + Window else |text|)]
  {
    var lo := if m.start >= Window then m.start - Window else 0;
    var hi := if m.end + Window <= |text| then m.end + Window else |text|;
    Known(pattern, m.group, airline, AwbDetector.PySlice(text, lo, m.start), AwbDetector.PySlice(text, m.end, hi))
  }

  /** The entries for one pattern of one carrier, one per match, in match order. */
  function PatternKnown(text: string, airline: string, pattern: string, f: Finditer): seq<Known> {
    var ms := f(pattern, text);
    seq(|ms|, k requires 0 <= k < |ms| => KnownOf(text, airline, pattern, ms[k]))
  }

  /** The entries for a list of patterns of one carrier. */
  function PatternsKnown(text: string, airline: string, ps: seq<string>, f: Finditer): seq<Known> {
    if ps == [] then []
    else PatternsKnown(text, airline, ps[..|ps| - 1], f) + PatternKnown(text, airline, ps[|ps| - 1], f)
  }

  /** The patterns a carrier's entry lists; an entry without the key contributes none. */
  function CarrierPatterns(c: Carrier): seq<string> {
    c.data.patterns.GetOr([])
  }

  /** `known_patterns` for the first carriers of the file, in file order. */
  function KnownSpec(text: string, reg: Registry, f: Finditer): seq<Known> {
    if reg == [] then []
    else
      var c := reg[|reg| - 1];
      KnownSpec(text, reg[..|reg| - 1], f) + PatternsKnown(text, c.code, CarrierPatterns(c), f)
  }

  /** Every collected entry comes from a listed pattern of a carrier in the file and carries at
      most 50 characters of context on either side. */
  lemma {:induction false} KnownSpecSound(text: string, reg: Registry, f: Finditer)
    ensures forall k :: k in KnownSpec(text, reg, f) ==>
      |k.preText| <= Window && |k.postText| <= Window
      && exists i :: 0 <= i < |reg| && reg[i].code == k.airline && k.pattern in CarrierPatterns(reg[i])
    decreases |reg|
  {
    if reg != [] {
      var init := reg[..|reg| - 1];
      var c := reg[|reg| - 1];
      KnownSpecSound(text, init, f);
      PatternsKnownSound(text, c.code, CarrierPatterns(c), f);
      forall k | k in KnownSpec(text, reg, f)
        ensures exists i :: 0 <= i < |reg| && reg[i].code == k.airline && k.pattern in CarrierPatterns(reg[i])
      {
        if k in KnownSpec(text, init, f) {
          var i :| 0 <= i < |init| && init[i].code == k.airline && k.pattern in CarrierPatterns(init[i]);
          assert reg[i] == init[i];
        } else {
          assert reg[|reg| - 1] == c;
        }
      }
    }
  }

  lemma {:induction false} PatternsKnownSound(text: string, airline: string, ps: seq<string>, f: Finditer)
    ensures forall k :: k in PatternsKnown(text, airline, ps, f) ==>
      |k.preText| <= Window && |k.postText| <= Window && k.airline == airline && k.pattern in ps
    decreases |ps|
  {
    if ps != [] {
      PatternsKnownSound(text, airline, ps[..|ps| - 1], f);
    }
  }

  /** The pattern each entry teaches, in order. */
  function Taught(known: seq<Known>): (r: seq<string>)
    ensures |r| == |known|
  {
    seq(|known|, k requires 0 <= k < |known| => ContextPattern(known[k].preText, known[k].postText, known[k].matched))
  }

  /** The matches of one pattern, as the innermost loop of `learn_from_text` collects them. */
  method CollectPattern(text: string, airline: string, pattern: string, f: Finditer) returns (known: seq<Known>)
    ensures known == PatternKnown(text, airline, pattern, f)
  {
    var ms := f(pattern, text);
    known := [];
    var i := 0;
    while i < |ms|
      invariant 0 <= i <= |ms|
      invariant known == seq(i, k requires 0 <= k < i => KnownOf(text, airline, pattern, ms[k]))
    {
      known := known + [KnownOf(text, airline, pattern, ms[i])];
      i := i + 1;
    }
  }

  /** The matches of every pattern of one carrier. */
  method CollectCarrier(text: string, c: Carrier, f: Finditer) returns (known: seq<Known>)
    ensures known == PatternsKnown(text, c.code, CarrierPatterns(c), f)
  {
    var ps := CarrierPatterns(c);
    known := [];
    var i := 0;
    while i < |ps|
      invariant 0 <= i <= |ps|
      invariant known == PatternsKnown(text, c.code, ps[..i], f)
    {
      var more := CollectPattern(text, c.code, ps[i], f);
      assert ps[..i + 1][..i] == ps[..i];
      known := known + more;
      i := i + 1;
    }
    assert ps[..i] == ps;
  }

  /** The matches of every pattern of every carrier, in file order. */
  method CollectKnown(text: string, reg: Registry, f: Finditer) returns (known: seq<Known>)
    ensures known == KnownSpec(text, reg, f)
  {
    known := [];
    var i := 0;
    while i < |reg|
      invariant 0 <= i <= |reg|
      invariant known == KnownSpec(text, reg[..i], f)
    {
      var more := CollectCarrier(text, reg[i], f);
      assert reg[..i + 1][..i] == reg[..i];
      known := known + more;
      i := i + 1;
    }
    assert reg[..i] == reg;
  }

  // ---------------------------------------------------------------- the learner

  class PatternLearner {
    /** The pattern file as the learner holds it in memory. */
    var patterns: PatternFile
    /** `learned_patterns`: how many times each pattern was produced. */
    var learned: map<string, nat>
    /** What the learner last wrote to the pattern file, if anything. */
    var stored: Option<PatternFile>

    /** `__init__`: load the file (`None` when it cannot be read or parsed) and start counting. */
    constructor(parsed: Option<PatternFile>)
      ensures patterns == LoadPatterns(parsed) && learned == map[] && stored == None
    {
      patterns := LoadPatterns(parsed);
      learned := map[];
      stored := None;
    }

    /** `_analyze_context`: one more sighting of the pattern made from the match and its words. */
    method AnalyzeContext(preText: string, postText: string, matched: string)
      modifies this
      ensures learned == Bump(old(learned), ContextPattern(preText, postText, matched))
      ensures patterns == old(patterns) && stored == old(stored)
    {
      var pre := LastThree(Words(preText));
      var post := FirstThree(Words(postText));
      var p := CreatePattern(matched, pre, post);
      learned := learned[p := CountOf(learned, p) + 1];
    }

    /** `save_learned_patterns`; `written` is whether opening and writing the file succeeds. The
        `KeyError` of a carrier without patterns is caught and ends the loop, leaving the carriers
        before it already cut back; so is a failed write, after every carrier was cut back. */
    method SaveLearnedPatterns(written: bool)
      modifies this
      ensures (patterns, stored) == SaveSpec(old(patterns), old(stored), written)
      ensures learned == old(learned)
    {
      if patterns.patterns.None? {
        return;
      }
      var reg := patterns.patterns.value;
      var n := FirstWithoutPatterns(reg);
      assert TruncateUpTo(reg, 0) == reg;
      var i := 0;
      while i < |reg|
        invariant 0 <= i <= |reg| && i <= n
        invariant patterns == PatternFile(Some(TruncateUpTo(reg, i)))
        invariant stored == old(stored) && learned == old(learned)
      {
        var c := patterns.patterns.value[i];
        if c.data.patterns.None? {
          assert i == n;
          return;
        }
        var cur := patterns.patterns.value;
        var cut := c.(data := c.data.(patterns := Some(FirstTwo(c.data.patterns.value))));
        patterns := PatternFile(Some(cur[i := cut]));
        assert patterns.patterns.value == TruncateUpTo(reg, i + 1);
        i := i + 1;
      }
      assert TruncateUpTo(reg, n) == TruncateUpTo(reg, i);
      if written {
        stored := Some(patterns);
      }
    }

    /** `learn_from_text`. A file without `"patterns"` raises `KeyError`, which is caught before
        anything changes; otherwise every match's pattern is counted, and the learner saves when
        its counter is non-empty, with `written` the outcome of the file write. */
    method LearnFromText(text: string, f: Finditer, written: bool)
      modifies this
      ensures old(patterns).patterns.None? ==>
        patterns == old(patterns) && learned == old(learned) && stored == old(stored)
      ensures old(patterns).patterns.Some? ==>
        learned == Tally(old(learned), Taught(KnownSpec(text, old(patterns).patterns.value, f)))
        && (if |learned| > 0 then (patterns, stored) == SaveSpec(old(patterns), old(stored), written)
            else patterns == old(patterns) && stored == old(stored))
    {
      if patterns.patterns.None? {
        return;
      }
      var known := CollectKnown(text, patterns.patterns.value, f);
      ghost var taught := Taught(known);
      var i := 0;
      while i < |known|
        invariant 0 <= i <= |known|
        invariant learned == Tally(old(learned), taught[..i])
        invariant patterns == old(patterns) && stored == old(stored)
      {
        ghost var before := learned;
        AnalyzeContext(known[i].preText, known[i].postText, known[i].matched);
        TallyStep(old(learned), taught, i, before);
        assert learned == Bump(before, taught[i]);
        i := i + 1;
      }
      assert taught[..i] == taught;
      if |learned| > 0 {
        SaveLearnedPatterns(written);
      }
    }
  }

  lemma TallyStep(start: map<string, nat>, ps: seq<string>, i: nat, before: map<string, nat>)
    requires i < |ps| && before == Tally(start, ps[..i])
    ensures Tally(start, ps[..i + 1]) == Bump(before, ps[i])
  {
    assert ps[..i + 1][..i] == ps[..i];
  }

  /** After learning from a text with at least one match, the learner always saves. */
  lemma LearningSaves(learned: map<string, nat>, known: seq<Known>)
    requires known != []
    ensures |Tally(learned, Taught(known))| > 0
  {
    TallyNonEmpty(learned, Taught(known));
  }
}
