/** The carrier pattern file (`config/awb_patterns.json`) as the detector and the learner read it. */
module Registry {
  import opened Wrappers
  import opened PyStr

  /** The `prefix` entry: JSON null, one string, or a list of strings. */
  datatype Prefix = PrefixNull | PrefixText(text: string) | PrefixList(items: seq<string>)

  /** Python's truth value of a `prefix` entry. */
  predicate PrefixTruthy(p: Prefix) {
    match p
    case PrefixNull => false
    case PrefixText(t) => t != ""
    case PrefixList(l) => l != []
  }

  /** One carrier's entry; `None` marks a key that is absent from the entry, and `otherKeys`
      records whether the entry has keys this model does not read. */
  datatype PatternData = PatternData(
    prefix: Option<Prefix>,
    length: Option<int>,
    minConfidence: Option<real>,
    enabled: Option<bool>,
    patterns: Option<seq<string>>,
    otherKeys: bool)

  /** The entry is the empty dictionary, which Python treats as false. */
  predicate IsEmptyEntry(d: PatternData) {
    d.prefix.None? && d.length.None? && d.minConfidence.None? && d.enabled.None?
    && d.patterns.None? && !d.otherKeys
  }

  datatype Carrier = Carrier(code: string, data: PatternData)

  /** The `patterns` dictionary, in key order. */
  type Registry = seq<Carrier>

  /** The whole file; `patterns` is `None` when the file has no `"patterns"` key. */
  datatype PatternFile = PatternFile(patterns: Option<Registry>)

  /** What loading the file yields: the parsed file, or `{"patterns": {}}` when it cannot be
      opened or parsed (`None`). */
  function LoadPatterns(parsed: Option<PatternFile>): (r: PatternFile)
    ensures parsed.None? ==> r.patterns == Some([])
    ensures parsed.Some? ==> r == parsed.value
  {
    match parsed
    case None => PatternFile(Some([]))
    case Some(f) => f
  }

  /** Dictionary keys are distinct: a parsed JSON object keeps one entry per key (the last, when
      the file repeats one), so every registry read from the file has this form. */
  predicate WellFormed(reg: Registry) {
    forall i, j :: 0 <= i < j < |reg| ==> reg[i].code != reg[j].code
  }

  /** `patterns.get(code)`. */
  function Lookup(reg: Registry, code: string): (r: Option<PatternData>)
    ensures r.Some? <==> exists i :: 0 <= i < |reg| && reg[i].code == code
    ensures r.Some? ==> exists i :: 0 <= i < |reg| && reg[i].code == code && reg[i].data == r.value
  {
    if reg == [] then None
    else if reg[0].code == code then Some(reg[0].data)
    else
      var r := Lookup(reg[1..], code);
      assert forall i :: 1 <= i < |reg| ==> reg[i] == reg[1..][i - 1];
      r
  }

  /** On a registry with distinct keys the entry found is the one entry of that code, so which
      of several duplicates a lookup would pick never arises. */
  lemma LookupUnique(reg: Registry, code: string, i: nat)
    requires WellFormed(reg) && i < |reg| && reg[i].code == code
    ensures Lookup(reg, code) == Some(reg[i].data)
  {
    var j :| 0 <= j < |reg| && reg[j].code == code && reg[j].data == Lookup(reg, code).value;
    assert i == j;
  }

  const DefaultMinConfidence: real := 0.7

  /** `patterns.get(code, {}).get("min_confidence", 0.7)`. */
  function MinConfidence(reg: Registry, code: string): real {
    match Lookup(reg, code)
    case None => DefaultMinConfidence
    case Some(d) => d.minConfidence.GetOr(DefaultMinConfidence)
  }
}
