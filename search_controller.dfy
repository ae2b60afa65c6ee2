/** `SearchWorker` and `SearchController` (controllers/search_controller.py): mails are cut into
    contiguous batches, each batch is searched on its own, and batch results are collected in the
    order the batches complete. */
module SearchController {
  import opened Wrappers
  import opened PyStr
  import opened PyValue
  import opened Registry
  import opened AwbDetector
  import CacheManager
  import opened Arith

  type Mail = map<string, Value>

  // ---------------------------------------------------------------- batches

  /** `[s[i:i + size] for i in range(0, len(s), size)]` for a positive size. */
  function Chunks<T>(s: seq<T>, size: nat): (r: seq<seq<T>>)
    requires size > 0
    decreases |s|
  {
    if s == [] then []
    else if |s| <= size then [s]
    else [s[..size]] + Chunks(s[size..], size)
  }

  function Flatten<T>(ss: seq<seq<T>>): seq<T>
  {
    if ss == [] then [] else ss[0] + Flatten(ss[1..])
  }

  /** The batches concatenate back to the input, in order. */
  lemma {:induction false} ChunksFlatten<T>(s: seq<T>, size: nat)
    requires size > 0
    ensures Flatten(Chunks(s, size)) == s
    decreases |s|
  {
    if |s| > size {
      ChunksFlatten(s[size..], size);
      assert s[..size] + s[size..] == s;
    }
  }

  /** Every batch is non-empty and holds at most `size` items; all but the last hold exactly
      `size`. */
  lemma {:induction false} ChunksSizes<T>(s: seq<T>, size: nat)
    requires size > 0
    ensures forall k :: 0 <= k < |Chunks(s, size)| ==> 0 < |Chunks(s, size)[k]| <= size
    ensures forall k :: 0 <= k < |Chunks(s, size)| - 1 ==> |Chunks(s, size)[k]| == size
    decreases |s|
  {
    if |s| > size {
      ChunksSizes(s[size..], size);
      var r := Chunks(s, size);
      var t := Chunks(s[size..], size);
      assert r == [s[..size]] + t;
      forall k | 0 <= k < |r|
        ensures 0 < |r[k]| <= size && (k < |r| - 1 ==> |r[k]| == size)
      {
        if k > 0 {
          assert r[k] == t[k - 1];
        }
      }
    }
  }

  /** There are ⌈|s| / size⌉ batches. */
  lemma {:induction false} ChunksCount<T>(s: seq<T>, size: nat)
    requires size > 0
    ensures |Chunks(s, size)| == (|s| + size - 1) / size
    decreases |s|
  {
    if s == [] {
      DivUnique(size - 1, size, 0, size - 1);
    } else if |s| <= size {
      DivUnique(|s| + size - 1, size, 1, |s| - 1);
    } else {
      ChunksCount(s[size..], size);
      DivPlusOne(|s| - size + size - 1, size);
    }
  }

  /** The partition of `_search_worker`: `range` raises for a zero step and is empty for a
      negative one. */
  function Partition<T>(s: seq<T>, batchSize: int): (r: Result<seq<seq<T>>>)
    ensures r.Raised? <==> batchSize == 0
    ensures batchSize < 0 ==> r == Ok([])
    ensures batchSize > 0 ==> r.Ok? && Flatten(r.value) == s
  {
    if batchSize == 0 then Raised("ValueError: range() arg 3 must not be zero")
    else if batchSize < 0 then Ok([])
    else
      ChunksFlatten(s, batchSize);
      Ok(Chunks(s, batchSize))
  }

  // ---------------------------------------------------------------- progress

  const BatchSize: nat := 10

  /** `int(completed / total * 100)`, in exact arithmetic. */
  function Percent(completed: nat, total: nat): nat
    requires total > 0
  {
    completed * 100 / total
  }

  /** The batch count as `run` computes it: `len(mails) // batch_size + 1`. */
  function TotalBatchesAsWritten(n: nat): nat {
    n / BatchSize + 1
  }

  /** The number of batches `run` actually submits. */
  function TotalBatches(n: nat): (r: nat)
    ensures r == (n + BatchSize - 1) / BatchSize
  {
    (n + BatchSize - 1) / BatchSize
  }

  /** The corrected total is the number of batches `run` submits. */
  lemma TotalBatchesIsChunkCount(mails: seq<Mail>)
    ensures TotalBatches(|mails|) == |Chunks(mails, BatchSize)|
  {
    ChunksCount(mails, BatchSize);
  }

  /** With the count as written, 20 mails end at 66 per cent. */
  lemma ProgressAsWrittenTwenty()
    ensures TotalBatches(20) == 2 && Percent(TotalBatches(20), TotalBatchesAsWritten(20)) == 66
  {
  }

  /** With the count as written, a non-empty multiple of ten mails never reaches 100 per cent. */
  lemma ProgressAsWrittenNeverFull(n: nat)
    requires n > 0 && n % BatchSize == 0
    ensures Percent(TotalBatches(n), TotalBatchesAsWritten(n)) < 100
  {
    var b := n / BatchSize;
    assert TotalBatches(n) == b;
    assert TotalBatchesAsWritten(n) == b + 1;
  }

  /** Progress never decreases and stays within 0..100, and the last batch reports 100. */
  lemma ProgressMonotone(a: nat, b: nat, total: nat)
    requires 0 < total && a <= b <= total
    ensures Percent(a, total) <= Percent(b, total) <= 100
    ensures b == total ==> Percent(b, total) == 100
  {
    DivMonotone(a * 100, b * 100, total);
    DivMonotone(b * 100, total * 100, total);
    DivSelf(100, total);
    assert total * 100 == 100 * total;
  }

  /** Reordering keeps the length. */
  lemma SameLength<T>(a: seq<T>, b: seq<T>)
    requires multiset(a) == multiset(b)
    ensures |a| == |b|
  {
    assert |multiset(a)| == |a| && |multiset(b)| == |b|;
  }

  datatype Event<R> = Progress(percent: nat) | BatchResult(result: R) | Finished

  /** How many batches, in completion order, `future.result()` returns for before the first one
      whose search raised (all of them when none did). */
  function FirstRaised<R>(search: seq<Mail> -> Result<R>, done: seq<seq<Mail>>): (j: nat)
    ensures j <= |done|
    ensures forall k :: 0 <= k < j ==> search(done[k]).Ok?
    ensures j < |done| ==> search(done[j]).Raised?
  {
    if done == [] || search(done[0]).Raised? then 0
    else 1 + FirstRaised(search, done[1..])
  }

  /** The worker thread: `search` is the search function, `mails` the mails it was given. */
  class SearchWorker<R> {
    const search: seq<Mail> -> Result<R>
    const mails: seq<Mail>

    constructor(search: seq<Mail> -> Result<R>, mails: seq<Mail>)
      ensures this.search == search && this.mails == mails
    {
      this.search := search;
      this.mails := mails;
    }

    /** Submits one batch of 10 mails at a time. */
    method Submit() returns (batches: seq<seq<Mail>>)
      ensures batches == Chunks(mails, BatchSize)
    {
      batches := [];
      var i := 0;
      while i < |mails|
        invariant 0 <= i <= |mails|
        invariant batches + Chunks(mails[i..], BatchSize) == Chunks(mails, BatchSize)
      {
        var j := if i + BatchSize <= |mails| then i + BatchSize else |mails|;
        if |mails[i..]| > BatchSize {
          assert mails[i..][..BatchSize] == mails[i..j] && mails[i..][BatchSize..] == mails[j..];
        } else {
          assert mails[i..] == mails[i..j] && mails[j..] == [];
        }
        batches := batches + [mails[i..j]];
        i := j;
      }
    }

    /** `run`, with the batch count corrected to the number of batches submitted: `done` is the
        submitted batches in the order they complete. Each batch emits its progress value and then,
        when its search returned, its result; the first search that raised ends `run` with that
        exception (`raised`) right after its progress value, and `finished` is emitted only when
        every search returned. */
    method Run(done: seq<seq<Mail>>) returns (events: seq<Event<R>>, raised: Option<string>)
      requires multiset(done) == multiset(Chunks(mails, BatchSize))
      ensures |done| == TotalBatches(|mails|)
      ensures var j := FirstRaised(search, done);
        j < |done| ==>
          events == Emitted(search, done, |done|, j) + [Progress(Percent(j + 1, |done|))]
          && raised == Some(search(done[j]).error)
      ensures var j := FirstRaised(search, done);
        j == |done| ==> events == Emitted(search, done, |done|, j) + [Finished] && raised == None
      ensures raised.None? && |done| > 0 ==> events[2 * |done| - 2] == Progress(100)
    {
      var batches := Submit();
      CompletedCount(mails, done);
      var total := TotalBatches(|mails|);
      ghost var first := FirstRaised(search, done);
      events := [];
      var completed := 0;
      while completed < |done|
        invariant 0 <= completed <= first <= |done| == total
        invariant events == Emitted(search, done, total, completed)
      {
        var results := search(done[completed]);
        if results.Raised? {
          events := events + [Progress(Percent(completed + 1, total))];
          return events, Some(results.error);
        }
        events := events + [Progress(Percent(completed + 1, total)), BatchResult(results.value)];
        completed := completed + 1;
      }
      EmittedEndsFull(search, done, total);
      events := events + [Finished];
      raised := None;
    }
  }

  /** As many batches complete as were submitted. */
  lemma CompletedCount(mails: seq<Mail>, done: seq<seq<Mail>>)
    requires multiset(done) == multiset(Chunks(mails, BatchSize))
    ensures |done| == TotalBatches(|mails|)
  {
    ChunksCount(mails, BatchSize);
    SameLength(done, Chunks(mails, BatchSize));
  }

  /** When every batch returned, the last progress value is 100. */
  lemma EmittedEndsFull<R>(search: seq<Mail> -> Result<R>, done: seq<seq<Mail>>, total: nat)
    requires |done| == total
    requires forall k :: 0 <= k < total ==> search(done[k]).Ok?
    ensures total > 0 ==> Emitted(search, done, total, total)[2 * total - 2] == Progress(100)
  {
    if total > 0 {
      ProgressMonotone(total, total, total);
    }
  }

  /** The events of the first `n` batches in completion order when each of their searches
      returned: the progress value, then the result, per batch. */
  function Emitted<R>(search: seq<Mail> -> Result<R>, done: seq<seq<Mail>>, total: nat, n: nat): (r: seq<Event<R>>)
    requires n <= |done| && n <= total
    requires forall k :: 0 <= k < n ==> search(done[k]).Ok?
    ensures |r| == 2 * n
  {
    if n == 0 then []
    else Emitted(search, done, total, n - 1) + [Progress(Percent(n, total)), BatchResult(search(done[n - 1]).value)]
  }

  /** Batch `k` owns events `2k` and `2k + 1`. */
  lemma {:induction false} EmittedAll<R>(search: seq<Mail> -> Result<R>, done: seq<seq<Mail>>, total: nat, n: nat)
    requires n <= |done| && n <= total
    requires forall k :: 0 <= k < n ==> search(done[k]).Ok?
    ensures forall k :: 0 <= k < n ==>
      Emitted(search, done, total, n)[2 * k] == Progress(Percent(k + 1, total))
      && Emitted(search, done, total, n)[2 * k + 1] == BatchResult(search(done[k]).value)
  {
    if n > 0 {
      EmittedAll(search, done, total, n - 1);
    }
  }

  // ---------------------------------------------------------------- one batch

  /** A result row of `_search_batch`. */
  datatype Rec = Rec(awb: string, airline: string, confidence: real, context: Context, matchedText: string,
                     lineNumber: int, date: Value, subject: Value)

  /** The empty carrier entry `patterns.get(airline, {})` falls back to. */
  const EmptyEntry := PatternData(None, None, None, None, None, false)

  function EntryOf(reg: Registry, airline: string): PatternData {
    Lookup(reg, airline).GetOr(EmptyEntry)
  }

  /** The confidence gate: at least the carrier's `min_confidence` (0.7 when unset). */
  predicate Gate(reg: Registry, d: Detection) {
    d.confidence >= MinConfidence(reg, d.airline)
  }

  predicate HasText(m: Mail) {
    "body" in m && "subject" in m
  }

  /** `f"{mail['body']} {mail['subject']}"`. */
  function Text(m: Mail): string
    requires HasText(m)
  {
    StrOf(m["body"]) + " " + StrOf(m["subject"])
  }

  /** The first mail without a body or subject, or the first gated detection, raises: the
      controller has no `awb_normalizer` attribute. As written, the batch search therefore never
      reports a result. */
  function SearchBatchAsWritten(reg: Registry, detect: string -> seq<Detection>, mails: seq<Mail>): Result<seq<Rec>>
    decreases |mails|
  {
    if mails == [] then Ok([])
    else if "body" !in mails[0] then Raised("KeyError: 'body'")
    else if "subject" !in mails[0] then Raised("KeyError: 'subject'")
    else if exists k :: 0 <= k < |detect(Text(mails[0]))| && Gate(reg, detect(Text(mails[0]))[k]) then
      Raised("AttributeError: 'SearchController' object has no attribute 'awb_normalizer'")
    else SearchBatchAsWritten(reg, detect, mails[1..])
  }

  lemma {:induction false} AsWrittenNeverReports(reg: Registry, detect: string -> seq<Detection>, mails: seq<Mail>)
    ensures SearchBatchAsWritten(reg, detect, mails).Ok? ==> SearchBatchAsWritten(reg, detect, mails).value == []
    ensures SearchBatchAsWritten(reg, detect, mails).Ok? ==>
              forall i, k :: 0 <= i < |mails| && HasText(mails[i]) && 0 <= k < |detect(Text(mails[i]))|
                             ==> !Gate(reg, detect(Text(mails[i]))[k])
    decreases |mails|
  {
    if mails != [] && HasText(mails[0]) {
      AsWrittenNeverReports(reg, detect, mails[1..]);
      assert forall i :: 1 <= i < |mails| ==> mails[i] == mails[1..][i - 1];
    }
  }

  /** As written, any mail with a detection that passes the gate makes the whole batch raise. */
  lemma AsWrittenRaises(reg: Registry, detect: string -> seq<Detection>, mails: seq<Mail>, i: nat, k: nat)
    requires i < |mails| && forall j :: 0 <= j <= i ==> HasText(mails[j])
    requires k < |detect(Text(mails[i]))| && Gate(reg, detect(Text(mails[i]))[k])
    ensures SearchBatchAsWritten(reg, detect, mails).Raised?
  {
    AsWrittenNeverReports(reg, detect, mails);
  }

  /** The detection of a sample text at full confidence. */
  function SampleDetect(t: string): seq<Detection> {
    [Detection("235-12345678", "TK", "235-12345678", 1.0, Some(Context("", "", "", 1, 0)), 1, "text")]
  }

  /** A single mail with one full-confidence detection is enough. */
  lemma AsWrittenSample()
    ensures SearchBatchAsWritten([], SampleDetect, [map["body" := Str("AWB 235-12345678"), "subject" := Str(""),
                                                        "date" := Null]]).Raised?
  {
    var m: Mail := map["body" := Str("AWB 235-12345678"), "subject" := Str(""), "date" := Null];
    assert Gate([], SampleDetect(Text(m))[0]);
    AsWrittenRaises([], SampleDetect, [m], 0, 0);
  }

  /** The parts of the corrected batch search that the source leaves unbound: the normaliser,
      returning the normalised code and carrier, and the validator. */
  datatype BatchEnv = BatchEnv(reg: Registry, detect: string -> seq<Detection>,
                               normalize: (string, PatternData) -> (string, string),
                               validate: string -> bool)

  /** Where a row came from. */
  datatype Source = Source(mail: Mail, det: Detection)

  /** The state of the batch loop: the rows, the codes seen, and (for the proofs) their sources. */
  datatype Acc = Acc(results: seq<Rec>, seen: set<string>, sources: seq<Source>)

  function Normalized(e: BatchEnv, d: Detection): (string, string) {
    e.normalize(d.awb, EntryOf(e.reg, d.airline))
  }

  /** The row `_search_batch` builds for detection `d` of mail `m`. */
  function RowOf(e: BatchEnv, m: Mail, d: Detection): Rec
    requires d.context.Some? && "date" in m && "subject" in m
  {
    var n := Normalized(e, d);
    Rec(n.0, n.1, d.confidence, d.context.value, d.matchText, d.lineNumber, m["date"], m["subject"])
  }

  /** One detection of one mail: gated, normalised, validated, and appended when its code is new. */
  function Admit(e: BatchEnv, acc: Acc, m: Mail, d: Detection): Result<Acc>
    requires HasText(m)
  {
    if !Gate(e.reg, d) then Ok(acc)
    else
      var n := Normalized(e, d);
      if !e.validate(n.0) || n.0 in acc.seen then Ok(acc)
      else if d.context.None? then Raised("KeyError: 'context'")
      else if "date" !in m then Raised("KeyError: 'date'")
      else Ok(Acc(acc.results + [RowOf(e, m, d)], acc.seen + {n.0}, acc.sources + [Source(m, d)]))
  }

  /** The inner loop over one mail's detections. */
  function ScanSpec(e: BatchEnv, acc: Acc, m: Mail, ds: seq<Detection>): Result<Acc>
    requires HasText(m)
  {
    if ds == [] then Ok(acc)
    else
      match ScanSpec(e, acc, m, ds[..|ds| - 1])
      case Raised(x) => Raised(x)
      case Ok(a) => Admit(e, a, m, ds[|ds| - 1])
  }

  /** The outer loop over the batch's mails. */
  function BatchSpec(e: BatchEnv, mails: seq<Mail>): Result<Acc>
  {
    if mails == [] then Ok(Acc([], {}, []))
    else
      match BatchSpec(e, mails[..|mails| - 1])
      case Raised(x) => Raised(x)
      case Ok(a) =>
        var m := mails[|mails| - 1];
        if "body" !in m then Raised("KeyError: 'body'")
        else if "subject" !in m then Raised("KeyError: 'subject'")
        else ScanSpec(e, a, m, e.detect(Text(m)))
  }

  function RecAwbs(s: seq<Rec>): set<string> {
    set k | 0 <= k < |s| :: s[k].awb
  }

  predicate AwbsDistinct(s: seq<Rec>) {
    forall i, j :: 0 <= i < j < |s| ==> s[i].awb != s[j].awb
  }

  /** Row `x` was made from detection `src.det` of mail `src.mail`, which passed the gate and
      the validator. */
  predicate Produced(e: BatchEnv, src: Source, x: Rec) {
    HasText(src.mail) && src.det in e.detect(Text(src.mail)) && Gate(e.reg, src.det)
    && x.awb == Normalized(e, src.det).0 && x.airline == Normalized(e, src.det).1 && e.validate(x.awb)
    && x.confidence == src.det.confidence && x.matchedText == src.det.matchText
  }

  /** What the loop keeps true: `seen` is the set of kept codes, no code is kept twice, and every
      row was produced from a mail of `mails`. */
  predicate AccOk(e: BatchEnv, mails: seq<Mail>, acc: Acc) {
    |acc.sources| == |acc.results| && acc.seen == RecAwbs(acc.results) && AwbsDistinct(acc.results)
    && forall k :: 0 <= k < |acc.results| ==> acc.sources[k].mail in mails && Produced(e, acc.sources[k], acc.results[k])
  }

  lemma AccOkWiden(e: BatchEnv, mails: seq<Mail>, more: seq<Mail>, acc: Acc)
    requires AccOk(e, mails, acc) && forall m :: m in mails ==> m in more
    ensures AccOk(e, more, acc)
  {
  }

  lemma AdmitOk(e: BatchEnv, mails: seq<Mail>, acc: Acc, m: Mail, d: Detection)
    requires AccOk(e, mails, acc) && m in mails && HasText(m) && d in e.detect(Text(m))
    ensures Admit(e, acc, m, d).Ok? ==> AccOk(e, mails, Admit(e, acc, m, d).value)
  {
    var r := Admit(e, acc, m, d);
    if r.Ok? && r.value != acc {
      var a := r.value;
      var n := Normalized(e, d);
      assert a.results == acc.results + [a.results[|acc.results|]];
      assert RecAwbs(a.results) == RecAwbs(acc.results) + {n.0} by {
        assert forall k :: 0 <= k < |acc.results| ==> a.results[k] == acc.results[k];
      }
    }
  }

  lemma {:induction false} ScanOk(e: BatchEnv, mails: seq<Mail>, acc: Acc, m: Mail, ds: seq<Detection>)
    requires AccOk(e, mails, acc) && m in mails && HasText(m)
    requires forall k :: 0 <= k < |ds| ==> ds[k] in e.detect(Text(m))
    ensures ScanSpec(e, acc, m, ds).Ok? ==> AccOk(e, mails, ScanSpec(e, acc, m, ds).value)
    decreases |ds|
  {
    if ds != [] {
      ScanOk(e, mails, acc, m, ds[..|ds| - 1]);
      var r := ScanSpec(e, acc, m, ds[..|ds| - 1]);
      if r.Ok? {
        AdmitOk(e, mails, r.value, m, ds[|ds| - 1]);
      }
    }
  }

  lemma {:induction false} BatchOk(e: BatchEnv, mails: seq<Mail>)
    ensures BatchSpec(e, mails).Ok? ==> AccOk(e, mails, BatchSpec(e, mails).value)
    decreases |mails|
  {
    if mails != [] {
      var init := mails[..|mails| - 1];
      var m := mails[|mails| - 1];
      BatchOk(e, init);
      var r := BatchSpec(e, init);
      if r.Ok? && HasText(m) {
        AccOkWiden(e, init, mails, r.value);
        ScanOk(e, mails, r.value, m, e.detect(Text(m)));
      }
    }
  }

  // ---------------------------------------------------------------- stable descending sort

  /** Inserts `x` after every row of at least its confidence. */
  function Insert(s: seq<Rec>, x: Rec): (r: seq<Rec>)
    ensures multiset(r) == multiset(s) + multiset{x}
  {
    if s == [] then [x]
    else if s[0].confidence < x.confidence then [x] + s
    else
      var t := Insert(s[1..], x);
      assert s == [s[0]] + s[1..];
      [s[0]] + t
  }

  /** `sorted(s, key=lambda x: x['confidence'], reverse=True)`. */
  function SortDesc(s: seq<Rec>): (r: seq<Rec>)
    ensures multiset(r) == multiset(s)
  {
    if s == [] then []
    else
      assert s == s[..|s| - 1] + [s[|s| - 1]];
      Insert(SortDesc(s[..|s| - 1]), s[|s| - 1])
  }

  predicate SortedDesc(s: seq<Rec>) {
    forall i, j :: 0 <= i < j < |s| ==> s[i].confidence >= s[j].confidence
  }

  /** The rows of confidence exactly `c`, in order. */
  function WithConfidence(s: seq<Rec>, c: real): seq<Rec>
  {
    if s == [] then [] else (if s[0].confidence == c then [s[0]] else []) + WithConfidence(s[1..], c)
  }

  lemma {:induction false} WithConfidenceAppend(a: seq<Rec>, b: seq<Rec>, c: real)
    ensures WithConfidence(a + b, c) == WithConfidence(a, c) + WithConfidence(b, c)
    decreases |a|
  {
    if a != [] {
      assert (a + b)[1..] == a[1..] + b;
      WithConfidenceAppend(a[1..], b, c);
    } else {
      assert a + b == b;
    }
  }

  lemma {:induction false} WithConfidenceNone(s: seq<Rec>, c: real)
    requires forall k :: 0 <= k < |s| ==> s[k].confidence < c
    ensures WithConfidence(s, c) == []
    decreases |s|
  {
    if s != [] {
      WithConfidenceNone(s[1..], c);
    }
  }

  /** Every row of `Insert(s, x)` is a row of `s` or `x`. */
  lemma InsertMembers(s: seq<Rec>, x: Rec, k: nat)
    requires k < |Insert(s, x)|
    ensures Insert(s, x)[k] == x || exists j :: 0 <= j < |s| && s[j] == Insert(s, x)[k]
  {
    var y := Insert(s, x)[k];
    assert y in multiset(Insert(s, x));
    if y != x {
      assert y in multiset(s);
      assert y in s;
    }
  }

  lemma {:induction false} InsertSorted(s: seq<Rec>, x: Rec)
    requires SortedDesc(s)
    ensures SortedDesc(Insert(s, x))
    decreases |s|
  {
    if s != [] && s[0].confidence >= x.confidence {
      InsertSorted(s[1..], x);
      var t := Insert(s[1..], x);
      assert Insert(s, x) == [s[0]] + t;
      forall k | 0 <= k < |t| ensures t[k].confidence <= s[0].confidence {
        InsertMembers(s[1..], x, k);
      }
    }
  }

  lemma {:induction false} InsertStable(s: seq<Rec>, x: Rec, c: real)
    requires SortedDesc(s)
    ensures WithConfidence(Insert(s, x), c) == WithConfidence(s, c) + (if x.confidence == c then [x] else [])
    decreases |s|
  {
    if s == [] {
    } else if s[0].confidence < x.confidence {
      assert Insert(s, x)[1..] == s;
      if x.confidence == c {
        WithConfidenceNone(s, c);
      }
    } else {
      InsertStable(s[1..], x, c);
      assert Insert(s, x)[1..] == Insert(s[1..], x);
    }
  }

  /** The sort orders by descending confidence and is a permutation. */
  lemma {:induction false} SortDescSorted(s: seq<Rec>)
    ensures SortedDesc(SortDesc(s)) && multiset(SortDesc(s)) == multiset(s)
    decreases |s|
  {
    if s != [] {
      SortDescSorted(s[..|s| - 1]);
      InsertSorted(SortDesc(s[..|s| - 1]), s[|s| - 1]);
    }
  }

  lemma StableStep(sorted: seq<Rec>, init: seq<Rec>, last: Rec, c: real)
    requires SortedDesc(sorted)
    requires WithConfidence(sorted, c) == WithConfidence(init, c)
    ensures WithConfidence(Insert(sorted, last), c) == WithConfidence(init + [last], c)
  {
    InsertStable(sorted, last, c);
    WithConfidenceSnoc(init, last, c);
  }

  lemma WithConfidenceSnoc(init: seq<Rec>, last: Rec, c: real)
    ensures WithConfidence(init + [last], c) == WithConfidence(init, c) + (if last.confidence == c then [last] else [])
  {
    WithConfidenceAppend(init, [last], c);
    assert WithConfidence([last], c) == (if last.confidence == c then [last] else []) + WithConfidence([], c);
  }

  /** The sort is stable: the rows of any one confidence keep their order. */
  lemma {:induction false} SortDescStable(s: seq<Rec>, c: real)
    ensures WithConfidence(SortDesc(s), c) == WithConfidence(s, c)
    decreases |s|
  {
    if s != [] {
      var init, last := s[..|s| - 1], s[|s| - 1];
      SortDescStable(init, c);
      SortedOnly(init);
      SortDescUnfold(s);
      StableStep(SortDesc(init), init, last, c);
      SnocSplit(s);
    }
  }

  lemma SortedOnly(s: seq<Rec>)
    ensures SortedDesc(SortDesc(s))
  {
    SortDescSorted(s);
  }

  lemma SnocSplit(s: seq<Rec>)
    requires s != []
    ensures s == s[..|s| - 1] + [s[|s| - 1]]
  {
  }

  lemma SortDescUnfold(s: seq<Rec>)
    requires s != []
    ensures SortDesc(s) == Insert(SortDesc(s[..|s| - 1]), s[|s| - 1])
  {
  }

  lemma {:induction false} InsertDistinct(s: seq<Rec>, x: Rec)
    requires AwbsDistinct(s) && x.awb !in RecAwbs(s)
    ensures AwbsDistinct(Insert(s, x)) && RecAwbs(Insert(s, x)) == RecAwbs(s) + {x.awb}
    decreases |s|
  {
    var r := Insert(s, x);
    RecAwbsMultiset(r, s, x);
    if s != [] && s[0].confidence >= x.confidence {
      var tl := s[1..];
      assert forall k :: 0 <= k < |tl| ==> tl[k] == s[k + 1];
      assert x.awb !in RecAwbs(tl) by {
        forall a | a in RecAwbs(tl) ensures a in RecAwbs(s) {
          var k :| 0 <= k < |tl| && tl[k].awb == a;
          assert s[k + 1].awb == a;
        }
      }
      InsertDistinct(tl, x);
      var t := Insert(tl, x);
      assert s[0].awb !in RecAwbs(t) by {
        assert s[0].awb in RecAwbs(s);
        forall k | 0 <= k < |tl| ensures tl[k].awb != s[0].awb {
          assert s[k + 1] == tl[k];
        }
      }
      ConsDistinct(s[0], t);
    } else if s != [] {
      ConsDistinct(x, s);
    }
  }

  /** A row in front of rows with distinct codes, none of them its own. */
  lemma ConsDistinct(y: Rec, t: seq<Rec>)
    requires AwbsDistinct(t) && y.awb !in RecAwbs(t)
    ensures AwbsDistinct([y] + t)
  {
    var r := [y] + t;
    forall i, j | 0 <= i < j < |r| ensures r[i].awb != r[j].awb {
      assert r[j] == t[j - 1];
      if i > 0 {
        assert r[i] == t[i - 1];
      } else {
        assert t[j - 1].awb in RecAwbs(t);
      }
    }
  }

  /** Adding one row to the multiset of rows adds its code to the codes. */
  lemma RecAwbsMultiset(r: seq<Rec>, s: seq<Rec>, x: Rec)
    requires multiset(r) == multiset(s) + multiset{x}
    ensures RecAwbs(r) == RecAwbs(s) + {x.awb}
  {
    forall a | a in RecAwbs(r) ensures a in RecAwbs(s) + {x.awb} {
      var k :| 0 <= k < |r| && r[k].awb == a;
      assert r[k] in multiset(r);
      if r[k] != x {
        assert r[k] in multiset(s);
        var j :| 0 <= j < |s| && s[j] == r[k];
      }
    }
    forall a | a in RecAwbs(s) + {x.awb} ensures a in RecAwbs(r) {
      if a == x.awb {
        assert x in multiset(r);
        var k :| 0 <= k < |r| && r[k] == x;
      } else {
        var j :| 0 <= j < |s| && s[j].awb == a;
        assert s[j] in multiset(r);
        var k :| 0 <= k < |r| && r[k] == s[j];
      }
    }
  }

  lemma {:induction false} SortDistinct(s: seq<Rec>)
    requires AwbsDistinct(s)
    ensures AwbsDistinct(SortDesc(s)) && RecAwbs(SortDesc(s)) == RecAwbs(s)
    decreases |s|
  {
    if s != [] {
      var init, last := s[..|s| - 1], s[|s| - 1];
      assert RecAwbs(s) == RecAwbs(init) + {last.awb};
      SortDistinct(init);
      InsertDistinct(SortDesc(init), last);
    }
  }

  /** What `_search_batch` returns once the normaliser and validator exist. */
  function SearchBatchSpec(e: BatchEnv, mails: seq<Mail>): Result<seq<Rec>>
  {
    match BatchSpec(e, mails)
    case Raised(x) => Raised(x)
    case Ok(a) => Ok(SortDesc(a.results))
  }

  /** The corrected batch search keeps only gated, validated detections of the batch's own mails,
      at most one row per normalised code, sorted by descending confidence, stably. */
  lemma SearchBatchCorrect(e: BatchEnv, mails: seq<Mail>)
    ensures var r := SearchBatchSpec(e, mails);
            r.Ok? ==> SortedDesc(r.value) && AwbsDistinct(r.value)
                      && multiset(r.value) == multiset(BatchSpec(e, mails).value.results)
                      && (forall c :: WithConfidence(r.value, c) == WithConfidence(BatchSpec(e, mails).value.results, c))
                      && forall x :: x in r.value ==>
                           exists src: Source :: src.mail in mails && Produced(e, src, x)
  {
    var b := BatchSpec(e, mails);
    if b.Ok? {
      BatchOk(e, mails);
      var a := b.value;
      SortDescSorted(a.results);
      forall c ensures WithConfidence(SortDesc(a.results), c) == WithConfidence(a.results, c) {
        SortDescStable(a.results, c);
      }
      SortDistinct(a.results);
      forall x | x in SortDesc(a.results) ensures exists src: Source :: src.mail in mails && Produced(e, src, x) {
        assert x in multiset(a.results);
        var k :| 0 <= k < |a.results| && a.results[k] == x;
        assert a.sources[k].mail in mails && Produced(e, a.sources[k], x);
      }
    }
  }

  // ---------------------------------------------------------------- completeness

  /** A detection the batch search would keep if its code were new: it passes the gate and its
      normalised code validates. */
  predicate Admissible(e: BatchEnv, d: Detection) {
    Gate(e.reg, d) && e.validate(Normalized(e, d).0)
  }

  /** The normalised codes of the admissible detections among `ds`. */
  function ScanCodes(e: BatchEnv, ds: seq<Detection>): set<string>
  {
    if ds == [] then {}
    else
      var d := ds[|ds| - 1];
      ScanCodes(e, ds[..|ds| - 1]) + (if Admissible(e, d) then {Normalized(e, d).0} else {})
  }

  /** The normalised codes of the admissible detections of the mails that have a body and a subject. */
  function BatchCodes(e: BatchEnv, mails: seq<Mail>): set<string>
  {
    if mails == [] then {}
    else
      var m := mails[|mails| - 1];
      BatchCodes(e, mails[..|mails| - 1]) + (if HasText(m) then ScanCodes(e, e.detect(Text(m))) else {})
  }

  /** Scanning a mail adds exactly its admissible codes to `seen` and drops no row. */
  lemma {:induction false} ScanSeen(e: BatchEnv, acc: Acc, m: Mail, ds: seq<Detection>)
    requires HasText(m)
    ensures ScanSpec(e, acc, m, ds).Ok? ==> ScanSpec(e, acc, m, ds).value.seen == acc.seen + ScanCodes(e, ds)
    ensures ScanSpec(e, acc, m, ds).Ok? ==> forall x :: x in acc.results ==> x in ScanSpec(e, acc, m, ds).value.results
    decreases |ds|
  {
    if ds != [] {
      ScanSeen(e, acc, m, ds[..|ds| - 1]);
    }
  }

  /** After a batch, `seen` is exactly the set of admissible codes of its mails. */
  lemma {:induction false} BatchSeen(e: BatchEnv, mails: seq<Mail>)
    ensures BatchSpec(e, mails).Ok? ==> BatchSpec(e, mails).value.seen == BatchCodes(e, mails)
    decreases |mails|
  {
    if mails != [] {
      var init := mails[..|mails| - 1];
      var m := mails[|mails| - 1];
      BatchSeen(e, init);
      var r := BatchSpec(e, init);
      if r.Ok? && HasText(m) {
        ScanSeen(e, r.value, m, e.detect(Text(m)));
      }
    }
  }

  lemma {:induction false} ScanCodesHas(e: BatchEnv, ds: seq<Detection>, k: nat)
    requires k < |ds| && Admissible(e, ds[k])
    ensures Normalized(e, ds[k]).0 in ScanCodes(e, ds)
    decreases |ds|
  {
    if k < |ds| - 1 {
      ScanCodesHas(e, ds[..|ds| - 1], k);
    }
  }

  lemma {:induction false} ScanCodesFrom(e: BatchEnv, ds: seq<Detection>, c: string)
    ensures c in ScanCodes(e, ds) ==> exists k :: 0 <= k < |ds| && Admissible(e, ds[k]) && Normalized(e, ds[k]).0 == c
    decreases |ds|
  {
    if c in ScanCodes(e, ds) {
      var init := ds[..|ds| - 1];
      if c in ScanCodes(e, init) {
        ScanCodesFrom(e, init, c);
        var k :| 0 <= k < |init| && Admissible(e, init[k]) && Normalized(e, init[k]).0 == c;
        assert ds[k] == init[k];
      } else {
        assert Admissible(e, ds[|ds| - 1]) && Normalized(e, ds[|ds| - 1]).0 == c;
      }
    }
  }

  lemma {:induction false} BatchCodesHas(e: BatchEnv, mails: seq<Mail>, i: nat, k: nat)
    requires i < |mails| && HasText(mails[i]) && k < |e.detect(Text(mails[i]))|
    requires Admissible(e, e.detect(Text(mails[i]))[k])
    ensures Normalized(e, e.detect(Text(mails[i]))[k]).0 in BatchCodes(e, mails)
    decreases |mails|
  {
    if i < |mails| - 1 {
      assert mails[..|mails| - 1][i] == mails[i];
      BatchCodesHas(e, mails[..|mails| - 1], i, k);
    } else {
      ScanCodesHas(e, e.detect(Text(mails[i])), k);
    }
  }

  lemma {:induction false} BatchCodesFrom(e: BatchEnv, mails: seq<Mail>, c: string)
    ensures c in BatchCodes(e, mails) ==>
              exists i, k :: 0 <= i < |mails| && HasText(mails[i]) && 0 <= k < |e.detect(Text(mails[i]))|
                             && Admissible(e, e.detect(Text(mails[i]))[k]) && Normalized(e, e.detect(Text(mails[i]))[k]).0 == c
    decreases |mails|
  {
    if c in BatchCodes(e, mails) {
      var init := mails[..|mails| - 1];
      var m := mails[|mails| - 1];
      if c in BatchCodes(e, init) {
        BatchCodesFrom(e, init, c);
        var i, k :| 0 <= i < |init| && HasText(init[i]) && 0 <= k < |e.detect(Text(init[i]))|
                    && Admissible(e, e.detect(Text(init[i]))[k]) && Normalized(e, e.detect(Text(init[i]))[k]).0 == c;
        assert mails[i] == init[i];
      } else {
        ScanCodesFrom(e, e.detect(Text(m)), c);
        assert mails[|mails| - 1] == m;
      }
    }
  }

  /** Within one mail, the first admissible detection of a code that is not yet seen gives its row. */
  lemma {:induction false} ScanKeepsFirst(e: BatchEnv, acc: Acc, m: Mail, ds: seq<Detection>, k: nat)
    requires HasText(m) && k < |ds| && Admissible(e, ds[k])
    requires Normalized(e, ds[k]).0 !in acc.seen + ScanCodes(e, ds[..k])
    ensures ScanSpec(e, acc, m, ds).Ok? ==>
              ds[k].context.Some? && "date" in m && RowOf(e, m, ds[k]) in ScanSpec(e, acc, m, ds).value.results
    decreases |ds|
  {
    var init := ds[..|ds| - 1];
    if k < |ds| - 1 {
      assert init[..k] == ds[..k] && init[k] == ds[k];
      ScanKeepsFirst(e, acc, m, init, k);
    } else {
      assert init == ds[..k];
      ScanSeen(e, acc, m, init);
    }
  }

  /** Across the batch, the first admissible detection of a code gives its row. */
  lemma {:induction false} BatchKeepsFirst(e: BatchEnv, mails: seq<Mail>, i: nat, k: nat)
    requires i < |mails| && HasText(mails[i]) && k < |e.detect(Text(mails[i]))|
    requires var ds := e.detect(Text(mails[i]));
             Admissible(e, ds[k]) && Normalized(e, ds[k]).0 !in BatchCodes(e, mails[..i]) + ScanCodes(e, ds[..k])
    ensures var d := e.detect(Text(mails[i]))[k];
            BatchSpec(e, mails).Ok? ==>
              d.context.Some? && "date" in mails[i] && RowOf(e, mails[i], d) in BatchSpec(e, mails).value.results
    decreases |mails|
  {
    var init := mails[..|mails| - 1];
    var last := mails[|mails| - 1];
    if i < |mails| - 1 {
      assert init[..i] == mails[..i] && init[i] == mails[i];
      BatchKeepsFirst(e, init, i, k);
      var r := BatchSpec(e, init);
      if r.Ok? && HasText(last) {
        ScanSeen(e, r.value, last, e.detect(Text(last)));
      }
    } else {
      assert init == mails[..i];
      BatchSeen(e, init);
      var r := BatchSpec(e, init);
      if r.Ok? {
        ScanKeepsFirst(e, r.value, mails[i], e.detect(Text(mails[i])), k);
      }
    }
  }

  /** Detection `k` of mail `i` is admissible, and no admissible detection before it (in earlier
      mails, or earlier in the same mail) has the same normalised code. */
  predicate FirstOfCode(e: BatchEnv, mails: seq<Mail>, i: nat, k: nat)
    requires i < |mails| && HasText(mails[i]) && k < |e.detect(Text(mails[i]))|
  {
    var ds := e.detect(Text(mails[i]));
    Admissible(e, ds[k])
    && (forall i', k' :: 0 <= i' < i && HasText(mails[i']) && 0 <= k' < |e.detect(Text(mails[i']))|
                         && Admissible(e, e.detect(Text(mails[i']))[k'])
                         ==> Normalized(e, e.detect(Text(mails[i']))[k']).0 != Normalized(e, ds[k]).0)
    && forall k' :: 0 <= k' < k && Admissible(e, ds[k']) ==> Normalized(e, ds[k']).0 != Normalized(e, ds[k]).0
  }

  /** Completeness of the corrected batch search: the normalised code of every admissible
      detection of the batch's mails is among the rows, and the row kept for a code is the one
      made from its first admissible detection. */
  lemma SearchBatchComplete(e: BatchEnv, mails: seq<Mail>, i: nat, k: nat)
    requires i < |mails| && HasText(mails[i]) && k < |e.detect(Text(mails[i]))|
    requires Admissible(e, e.detect(Text(mails[i]))[k])
    ensures var d := e.detect(Text(mails[i]))[k];
            var r := SearchBatchSpec(e, mails);
            r.Ok? ==> Normalized(e, d).0 in RecAwbs(r.value)
    ensures var d := e.detect(Text(mails[i]))[k];
            var r := SearchBatchSpec(e, mails);
            r.Ok? && FirstOfCode(e, mails, i, k) ==> d.context.Some? && "date" in mails[i] && RowOf(e, mails[i], d) in r.value
  {
    var b := BatchSpec(e, mails);
    if b.Ok? {
      var rows := b.value.results;
      BatchOk(e, mails);
      BatchSeen(e, mails);
      BatchCodesHas(e, mails, i, k);
      SortedSameRows(rows);
      if FirstOfCode(e, mails, i, k) {
        FirstOfCodeUnseen(e, mails, i, k);
        BatchKeepsFirst(e, mails, i, k);
      }
    }
  }

  /** Sorting keeps every row and every code. */
  lemma SortedSameRows(rows: seq<Rec>)
    ensures forall x :: x in rows ==> x in SortDesc(rows)
    ensures RecAwbs(SortDesc(rows)) == RecAwbs(rows)
  {
    forall x | x in rows ensures x in SortDesc(rows) {
      assert x in multiset(SortDesc(rows));
    }
    forall c | c in RecAwbs(rows) ensures c in RecAwbs(SortDesc(rows)) {
      var j :| 0 <= j < |rows| && rows[j].awb == c;
      assert rows[j] in SortDesc(rows);
    }
    forall c | c in RecAwbs(SortDesc(rows)) ensures c in RecAwbs(rows) {
      var j :| 0 <= j < |SortDesc(rows)| && SortDesc(rows)[j].awb == c;
      assert SortDesc(rows)[j] in multiset(rows);
    }
  }

  /** A first admissible detection's code is in neither earlier mails' codes nor the codes of
      the detections before it. */
  lemma FirstOfCodeUnseen(e: BatchEnv, mails: seq<Mail>, i: nat, k: nat)
    requires i < |mails| && HasText(mails[i]) && k < |e.detect(Text(mails[i]))|
    requires FirstOfCode(e, mails, i, k)
    ensures var ds := e.detect(Text(mails[i]));
            Normalized(e, ds[k]).0 !in BatchCodes(e, mails[..i]) + ScanCodes(e, ds[..k])
  {
    var ds := e.detect(Text(mails[i]));
    var c := Normalized(e, ds[k]).0;
    BatchCodesFrom(e, mails[..i], c);
    assert forall i' :: 0 <= i' < i ==> mails[..i][i'] == mails[i'];
    ScanCodesFrom(e, ds[..k], c);
    assert forall k' :: 0 <= k' < k ==> ds[..k][k'] == ds[k'];
  }

  /** The inner loop of `_search_batch` for one mail. */
  method ScanMail(e: BatchEnv, m: Mail, acc: Acc) returns (r: Result<Acc>)
    requires HasText(m)
    ensures r == ScanSpec(e, acc, m, e.detect(Text(m)))
  {
    var ds := e.detect(Text(m));
    var cur := acc;
    var i := 0;
    while i < |ds|
      invariant 0 <= i <= |ds| && ScanSpec(e, acc, m, ds[..i]) == Ok(cur)
    {
      assert ds[..i + 1][..i] == ds[..i];
      var next := Admit(e, cur, m, ds[i]);
      if next.Raised? {
        ScanFailure(e, acc, m, ds, i + 1);
        return next;
      }
      cur := next.value;
      i := i + 1;
    }
    assert ds[..i] == ds;
    return Ok(cur);
  }

  lemma {:induction false} ScanFailure(e: BatchEnv, acc: Acc, m: Mail, ds: seq<Detection>, j: nat)
    requires HasText(m) && j <= |ds| && ScanSpec(e, acc, m, ds[..j]).Raised?
    ensures ScanSpec(e, acc, m, ds) == ScanSpec(e, acc, m, ds[..j])
    decreases |ds|
  {
    if j < |ds| {
      assert ds[..|ds| - 1][..j] == ds[..j];
      ScanFailure(e, acc, m, ds[..|ds| - 1], j);
    } else {
      assert ds[..j] == ds;
    }
  }

  lemma {:induction false} BatchFailure(e: BatchEnv, mails: seq<Mail>, j: nat)
    requires j <= |mails| && BatchSpec(e, mails[..j]).Raised?
    ensures BatchSpec(e, mails) == BatchSpec(e, mails[..j])
    decreases |mails|
  {
    if j < |mails| {
      assert mails[..|mails| - 1][..j] == mails[..j];
      BatchFailure(e, mails[..|mails| - 1], j);
    } else {
      assert mails[..j] == mails;
    }
  }

  /** `_search_batch` with the normaliser and validator supplied. */
  method SearchBatch(e: BatchEnv, mails: seq<Mail>) returns (r: Result<seq<Rec>>)
    ensures r == SearchBatchSpec(e, mails)
  {
    var acc := Acc([], {}, []);
    var i := 0;
    while i < |mails|
      invariant 0 <= i <= |mails| && BatchSpec(e, mails[..i]) == Ok(acc)
    {
      assert mails[..i + 1][..i] == mails[..i];
      var m := mails[i];
      if "body" !in m {
        BatchFailure(e, mails, i + 1);
        return Raised("KeyError: 'body'");
      }
      if "subject" !in m {
        BatchFailure(e, mails, i + 1);
        return Raised("KeyError: 'subject'");
      }
      var next := ScanMail(e, m, acc);
      if next.Raised? {
        BatchFailure(e, mails, i + 1);
        return Raised(next.error);
      }
      acc := next.value;
      i := i + 1;
    }
    assert mails[..i] == mails;
    return Ok(SortDesc(acc.results));
  }

  // ---------------------------------------------------------------- all batches

  /** `_search_worker`: the cached mails are partitioned and the batch results are concatenated in
      completion order; `completed` holds what each batch returned (or raised), in that order. */
  method SearchAll(doc: CacheManager.Document, batchSize: int, searchBatch: seq<Mail> -> Result<seq<Rec>>,
                   completed: seq<Result<seq<Rec>>>) returns (r: Result<seq<Rec>>)
    requires doc.mails.Some? && Partition(doc.mails.value, batchSize).Ok? ==>
               multiset(completed) == multiset(MapSeq(searchBatch, Partition(doc.mails.value, batchSize).value))
    ensures doc.mails.None? ==> r == Raised("KeyError: 'mails'")
    ensures doc.mails.Some? && batchSize == 0 ==> r.Raised?
    ensures doc.mails.Some? && batchSize != 0 ==>
              (r.Ok? <==> forall k :: 0 <= k < |completed| ==> completed[k].Ok?)
    ensures r.Ok? ==> r.value == Flatten(Values(completed))
    ensures r.Ok? ==> multiset(r.value) == multiset(Flatten(Values(MapSeq(searchBatch, Partition(doc.mails.value, batchSize).value))))
  {
    if doc.mails.None? {
      return Raised("KeyError: 'mails'");
    }
    var batches := Partition(doc.mails.value, batchSize);
    if batches.Raised? {
      return Raised(batches.error);
    }
    r := Gather(completed);
    if r.Ok? {
      ValuesPermutation(completed, MapSeq(searchBatch, batches.value));
      FlattenPermutation(Values(completed), Values(MapSeq(searchBatch, batches.value)));
    }
  }

  /** The loop of `_search_worker` over the completed batches: their lists concatenated, or the
      first error a batch raised. */
  method Gather(completed: seq<Result<seq<Rec>>>) returns (r: Result<seq<Rec>>)
    ensures r.Ok? <==> forall k :: 0 <= k < |completed| ==> completed[k].Ok?
    ensures r.Ok? ==> r.value == Flatten(Values(completed))
  {
    var results: seq<Rec> := [];
    var i := 0;
    while i < |completed|
      invariant 0 <= i <= |completed| && forall k :: 0 <= k < i ==> completed[k].Ok?
      invariant results == Flatten(Values(completed[..i]))
    {
      if completed[i].Raised? {
        return Raised(completed[i].error);
      }
      ValuesAppend(completed[..i], completed[i]);
      assert completed[..i + 1] == completed[..i] + [completed[i]];
      results := results + completed[i].value;
      i := i + 1;
    }
    assert completed[..i] == completed;
    return Ok(results);
  }

  function MapSeq<A, B>(f: A -> B, s: seq<A>): (r: seq<B>)
    ensures |r| == |s| && forall k :: 0 <= k < |s| ==> r[k] == f(s[k])
  {
    seq(|s|, k requires 0 <= k < |s| => f(s[k]))
  }

  /** The returned lists of the batches that succeeded. */
  function Values<T>(rs: seq<Result<T>>): seq<T>
  {
    if rs == [] then [] else Values(rs[..|rs| - 1]) + (if rs[|rs| - 1].Ok? then [rs[|rs| - 1].value] else [])
  }

  lemma ValuesAppend<T>(rs: seq<Result<seq<T>>>, x: Result<seq<T>>)
    requires x.Ok?
    ensures Flatten(Values(rs + [x])) == Flatten(Values(rs)) + x.value
  {
    assert (rs + [x])[..|rs|] == rs;
    FlattenAppend(Values(rs), [x.value]);
    assert Flatten([x.value]) == x.value + Flatten<T>([]);
  }

  lemma {:induction false} ValuesConcat<T>(a: seq<Result<T>>, b: seq<Result<T>>)
    ensures Values(a + b) == Values(a) + Values(b)
    decreases |b|
  {
    if b == [] {
      assert a + b == a;
    } else {
      var n := |b| - 1;
      assert (a + b)[..|a + b| - 1] == a + b[..n];
      ValuesConcat(a, b[..n]);
    }
  }

  /** Where the first item of `a` sits in a reordering `b` of it, and what is left of both. */
  lemma PickOut<T>(a: seq<T>, b: seq<T>) returns (j: nat)
    requires a != [] && multiset(a) == multiset(b)
    ensures j < |b| && b[j] == a[0]
    ensures b == b[..j] + [a[0]] + b[j + 1..]
    ensures multiset(a[1..]) == multiset(b[..j] + b[j + 1..])
  {
    var x := a[0];
    assert x in multiset(b);
    j :| 0 <= j < |b| && b[j] == x;
    assert b == b[..j] + [x] + b[j + 1..];
    assert a == [x] + a[1..];
    assert multiset(b) == multiset(b[..j]) + multiset{x} + multiset(b[j + 1..]);
    assert multiset(a) == multiset{x} + multiset(a[1..]);
    assert multiset(a[1..]) == multiset(a) - multiset{x};
    assert multiset(b[..j] + b[j + 1..]) == multiset(b[..j]) + multiset(b[j + 1..]);
    assert multiset(b[..j] + b[j + 1..]) == multiset(b) - multiset{x};
  }

  /** Which batches succeeded does not depend on the order they complete in. */
  lemma {:induction false} ValuesPermutation<T>(a: seq<Result<T>>, b: seq<Result<T>>)
    requires multiset(a) == multiset(b)
    ensures multiset(Values(a)) == multiset(Values(b))
    decreases |a|
  {
    if a == [] {
      assert |multiset(b)| == 0;
    } else {
      var x := a[0];
      var j := PickOut(a, b);
      var pre, post := b[..j], b[j + 1..];
      ValuesPermutation(a[1..], pre + post);
      assert a == [x] + a[1..];
      ValuesConcat([x], a[1..]);
      ValuesConcat(pre + [x], post);
      ValuesConcat(pre, [x]);
      ValuesConcat(pre, post);
      assert Values([x]) == Values<T>([]) + (if x.Ok? then [x.value] else []);
    }
  }

  lemma {:induction false} FlattenAppend<T>(a: seq<seq<T>>, b: seq<seq<T>>)
    ensures Flatten(a + b) == Flatten(a) + Flatten(b)
    decreases |a|
  {
    if a != [] {
      assert (a + b)[1..] == a[1..] + b;
      FlattenAppend(a[1..], b);
    } else {
      assert a + b == b;
    }
  }

  /** However the batches complete, the collected rows are those of all batches: the same
      multiset as in submission order. */
  lemma {:induction false} FlattenPermutation<T>(a: seq<seq<T>>, b: seq<seq<T>>)
    requires multiset(a) == multiset(b)
    ensures multiset(Flatten(a)) == multiset(Flatten(b))
    decreases |a|
  {
    if a == [] {
      assert |multiset(b)| == 0;
    } else {
      var x := a[0];
      var j := PickOut(a, b);
      var pre, post := b[..j], b[j + 1..];
      FlattenPermutation(a[1..], pre + post);
      FlattenAppend(pre + [x], post);
      FlattenAppend(pre, [x]);
      FlattenAppend(pre, post);
      assert Flatten([x]) == x + Flatten<T>([]);
      assert Flatten(a) == x + Flatten(a[1..]);
    }
  }
}
