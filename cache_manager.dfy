/** `CacheManager` (utils/cache_manager.py): the on-disk mail cache. Saving keeps the first
    `max_mails` mails, stores every string body as `compressed:` + hex(zlib(utf-8(body))), stamps
    `last_refresh` and replaces the cache file through a temporary file; loading undoes the tagging. */
module CacheManager {
  import opened Wrappers
  import opened PyStr
  import opened PyValue
  import opened Utf8
  import opened Hex
  import MailModel

  /** A cached mail: the dictionary `MailModel.to_dict` produces, or any other string-keyed dict. */
  type Mail = map<string, Value>

  /** The JSON object in the cache file: its `mails` list and its `last_refresh` entry (`None` for
      an absent key). */
  datatype Document = Document(mails: Option<seq<Mail>>, lastRefresh: Option<Value>)

  /** What `load_cache` returns when there is no usable cache. */
  const EmptyCache := Document(Some([]), Some(Null))

  /** A file as `json.load` sees it: a JSON object, or anything it or the later steps reject. */
  datatype FileContent = Json(doc: Document) | Unreadable

  /** `zlib.compress` and `zlib.decompress`; `None` is the `zlib.error` the latter raises. */
  datatype Zlib = Zlib(compress: seq<byte> -> seq<byte>, decompress: seq<byte> -> Option<seq<byte>>)

  /** The one property of zlib the cache relies on. */
  ghost predicate Lossless(z: Zlib) {
    forall b :: z.decompress(z.compress(b)) == Some(b)
  }

  const Tag: string := "compressed:"

  /** `s[:n]` with Python's slice rules (a negative `n` counts from the end). */
  function PyPrefix<T>(s: seq<T>, n: int): (r: seq<T>)
    ensures |r| <= |s| && r == s[..|r|]
    ensures |r| == if n >= 0 then (if n < |s| then n else |s|) else (if |s| + n > 0 then |s| + n else 0)
  {
    if n >= |s| then s
    else if n >= 0 then s[..n]
    else if |s| + n > 0 then s[..|s| + n]
    else []
  }

  /** The mail-count limit: the list is cut only when it is longer than `max`. */
  function Truncate(ms: seq<Mail>, max: int): (r: seq<Mail>)
    ensures |r| <= |ms| && r == ms[..|r|]
    ensures max >= 0 ==> |r| == if |ms| > max then max else |ms|
  {
    if |ms| > max then PyPrefix(ms, max) else ms
  }

  /** The stored form of a body. */
  function CompressBody(s: string, z: Zlib): (r: string)
    ensures StartsWith(r, Tag)
  {
    Tag + ToHex(z.compress(Encode(s)))
  }

  /** A mail as `save_cache` leaves it: a string body is compressed, anything else is untouched. */
  function CompressMail(m: Mail, z: Zlib): (r: Mail)
    ensures r.Keys == m.Keys
    ensures forall k :: k in m && k != "body" ==> r[k] == m[k]
    ensures "body" in m && m["body"].Str? ==> r["body"] == Str(CompressBody(m["body"].s, z))
    ensures !("body" in m && m["body"].Str?) ==> r == m
  {
    if "body" in m && m["body"].Str? then m["body" := Str(CompressBody(m["body"].s, z))] else m
  }

  function CompressAll(ms: seq<Mail>, z: Zlib): (r: seq<Mail>)
    ensures |r| == |ms| && forall k :: 0 <= k < |ms| ==> r[k] == CompressMail(ms[k], z)
  {
    seq(|ms|, k requires 0 <= k < |ms| => CompressMail(ms[k], z))
  }

  /** The tag-stripped text of a stored body back to the body; `None` when the hex, zlib or UTF-8
      step raises. */
  function DecodeBody(t: string, z: Zlib): Option<string>
  {
    match FromHex(t)
    case None => None
    case Some(b) =>
      match z.decompress(b)
      case None => None
      case Some(raw) => Decode(raw)
  }

  /** A mail as `load_cache` leaves it: a string body that starts with the tag is decoded, anything
      else is untouched; `None` when decoding raises. */
  function DecodeMail(m: Mail, z: Zlib): (r: Option<Mail>)
    ensures r.Some? ==> r.value.Keys == m.Keys
    ensures r.Some? ==> forall k :: k in m && k != "body" ==> r.value[k] == m[k]
    ensures !("body" in m && m["body"].Str? && StartsWith(m["body"].s, Tag)) ==> r == Some(m)
  {
    if "body" in m && m["body"].Str? && StartsWith(m["body"].s, Tag) then
      match DecodeBody(m["body"].s[|Tag|..], z)
      case None => None
      case Some(t) => Some(m["body" := Str(t)])
    else Some(m)
  }

  /** Decodes the mails in order; `None` as soon as one fails. */
  function DecodeMails(ms: seq<Mail>, z: Zlib): (r: Option<seq<Mail>>)
    ensures r.Some? ==> |r.value| == |ms|
  {
    if ms == [] then Some([])
    else
      match DecodeMails(ms[..|ms| - 1], z)
      case None => None
      case Some(init) =>
        match DecodeMail(ms[|ms| - 1], z)
        case None => None
        case Some(m) => Some(init + [m])
  }

  /** Once a prefix fails to decode, so does the whole list: `load_cache` stops at the first bad
      body. */
  lemma {:induction false} DecodeMailsFailure(ms: seq<Mail>, j: nat, z: Zlib)
    requires j <= |ms| && DecodeMails(ms[..j], z).None?
    ensures DecodeMails(ms, z).None?
    decreases |ms|
  {
    if j < |ms| {
      assert ms[..|ms| - 1][..j] == ms[..j];
      DecodeMailsFailure(ms[..|ms| - 1], j, z);
    } else {
      assert ms[..j] == ms;
    }
  }

  /** What `load_cache` returns for the cache file's content (`None`: no such file). */
  function LoadSpec(content: Option<FileContent>, z: Zlib): (r: Document)
    ensures content.None? || content.value.Unreadable? ==> r == EmptyCache
    ensures content.Some? && content.value.Json? && content.value.doc.mails.None? ==> r == content.value.doc
    ensures r == EmptyCache || r.lastRefresh == content.value.doc.lastRefresh
  {
    match content
    case None => EmptyCache
    case Some(Unreadable) => EmptyCache
    case Some(Json(d)) =>
      if d.mails.None? then d
      else
        match DecodeMails(d.mails.value, z)
        case None => EmptyCache
        case Some(ms) => Document(Some(ms), d.lastRefresh)
  }

  /** The sum of the file sizes `os.walk` finds. */
  function Sum(sizes: seq<nat>): nat
  {
    if sizes == [] then 0 else Sum(sizes[..|sizes| - 1]) + sizes[|sizes| - 1]
  }

  /** Loading what was saved restores each body exactly: for every tagged body the hex, zlib and
      UTF-8 steps are each undone. */
  lemma DecodeCompressedMail(m: Mail, z: Zlib)
    requires Lossless(z)
    ensures DecodeMail(CompressMail(m, z), z) == Some(m)
  {
    if "body" in m && m["body"].Str? {
      var s := m["body"].s;
      var e := z.compress(Encode(s));
      var c := CompressMail(m, z);
      assert c["body"].s[|Tag|..] == ToHex(e);
      FromHexToHex(e);
      DecodeEncode(s);
      assert DecodeBody(ToHex(e), z) == Some(s);
      assert c["body" := Str(s)] == m;
    }
  }

  /** Every mail list survives a save followed by a load. */
  lemma {:induction false} DecodeCompressAll(ms: seq<Mail>, z: Zlib)
    requires Lossless(z)
    ensures DecodeMails(CompressAll(ms, z), z) == Some(ms)
    decreases |ms|
  {
    if ms != [] {
      var c := CompressAll(ms, z);
      var n := |ms| - 1;
      assert c[..n] == CompressAll(ms[..n], z);
      DecodeCompressAll(ms[..n], z);
      DecodeCompressedMail(ms[n], z);
      assert ms[..n] + [ms[n]] == ms;
    }
  }

  /** The document a successful save writes. */
  function SavedDocument(ms: seq<Mail>, maxMails: Option<int>, now: MailModel.DateTime, z: Zlib): Document
  {
    Document(Some(CompressAll(Truncate(ms, maxMails.GetOr(1000)), z)), Some(Str(MailModel.IsoFormat(now))))
  }

  /** Saving then loading gives the first `max_mails` mails with their original bodies, and the
      save time as `last_refresh`. */
  lemma SaveThenLoad(ms: seq<Mail>, maxMails: Option<int>, now: MailModel.DateTime, z: Zlib)
    requires Lossless(z)
    ensures LoadSpec(Some(Json(SavedDocument(ms, maxMails, now, z))), z)
            == Document(Some(Truncate(ms, maxMails.GetOr(1000))), Some(Str(MailModel.IsoFormat(now))))
  {
    DecodeCompressAll(Truncate(ms, maxMails.GetOr(1000)), z);
  }

  /** The `data` dictionary the caller passes to `save_cache` and keeps afterwards. */
  class CacheData {
    var mails: Option<seq<Mail>>
    var lastRefresh: Option<Value>

    constructor(mails: Option<seq<Mail>>, lastRefresh: Option<Value>)
      ensures this.mails == mails && this.lastRefresh == lastRefresh
    {
      this.mails := mails;
      this.lastRefresh := lastRefresh;
    }

    function Snapshot(): Document
      reads this
    {
      Document(mails, lastRefresh)
    }
  }

  /** The files the cache touches, by path. */
  class Disk {
    var files: map<string, FileContent>

    constructor(files: map<string, FileContent>)
      ensures this.files == files
    {
      this.files := files;
    }
  }

  class CacheManager {
    const cacheFile: string
    const maxSizeMb: real
    const cleanupThreshold: real

    constructor(cacheFile: string)
      ensures this.cacheFile == cacheFile && maxSizeMb == 100.0 && cleanupThreshold == 0.9
    {
      this.cacheFile := cacheFile;
      maxSizeMb := 100.0;
      cleanupThreshold := 0.9;
    }

    function TempFile(): (r: string)
      ensures r != cacheFile
    {
      cacheFile + ".tmp"
    }

    /** `load_cache` on the current files. */
    method LoadCache(disk: Disk, z: Zlib) returns (doc: Document)
      ensures doc == LoadSpec(if cacheFile in disk.files then Some(disk.files[cacheFile]) else None, z)
    {
      if cacheFile !in disk.files || disk.files[cacheFile].Unreadable? {
        return EmptyCache;
      }
      var d := disk.files[cacheFile].doc;
      if d.mails.None? {
        return d;
      }
      var ms0 := d.mails.value;
      var ms := ms0;
      var i := 0;
      while i < |ms|
        invariant 0 <= i <= |ms| == |ms0|
        invariant DecodeMails(ms0[..i], z) == Some(ms[..i])
        invariant forall k :: i <= k < |ms| ==> ms[k] == ms0[k]
      {
        var m := DecodeMail(ms[i], z);
        assert ms0[..i + 1][..i] == ms0[..i];
        if m.None? {
          DecodeMailsFailure(ms0, i + 1, z);
          return EmptyCache;
        }
        assert ms[..i] + [m.value] == ms[i := m.value][..i + 1];
        ms := ms[i := m.value];
        i := i + 1;
      }
      assert ms0[..i] == ms0 && ms[..i] == ms;
      return Document(Some(ms), d.lastRefresh);
    }

    /** `save_cache(data, config)`, after the size check. `maxMails` is the configured
        `cache.max_mails`, `now` the clock, `writeOk` whether the temporary file can be written and
        `moveOk` whether it can be moved onto the cache file. */
    method SaveCache(data: CacheData, disk: Disk, maxMails: Option<int>, now: MailModel.DateTime, z: Zlib,
                     writeOk: bool, moveOk: bool) returns (r: Result<bool>)
      modifies data, disk
      ensures old(data.mails).None? ==>
                r.Raised? && data.Snapshot() == old(data.Snapshot()) && disk.files == old(disk.files)
      ensures old(data.mails).Some? ==>
                r == Ok(writeOk && moveOk)
                && data.Snapshot() == SavedDocument(old(data.mails).value, maxMails, now, z)
      ensures r == Ok(true) ==> disk.files == old(disk.files)[cacheFile := Json(data.Snapshot())] - {TempFile()}
      ensures r == Ok(false) ==> disk.files == old(disk.files) - {TempFile()}
    {
      if data.mails.None? {
        // The handler reads `temp_file` before it is bound.
        return Raised("UnboundLocalError: local variable 'temp_file' referenced before assignment");
      }
      data.mails := Some(Truncate(data.mails.value, maxMails.GetOr(1000)));
      ghost var kept := data.mails.value;
      var i := 0;
      while i < |data.mails.value|
        invariant data.mails.Some? && |data.mails.value| == |kept|
        invariant 0 <= i <= |kept|
        invariant forall k :: 0 <= k < i ==> data.mails.value[k] == CompressMail(kept[k], z)
        invariant forall k :: i <= k < |kept| ==> data.mails.value[k] == kept[k]
        invariant data.lastRefresh == old(data.lastRefresh) && disk.files == old(disk.files)
      {
        data.mails := Some(data.mails.value[i := CompressMail(data.mails.value[i], z)]);
        i := i + 1;
      }
      assert data.mails.value == CompressAll(kept, z);
      data.lastRefresh := Some(Str(MailModel.IsoFormat(now)));
      var temp := TempFile();
      if !writeOk {
        disk.files := disk.files - {temp};
        return Ok(false);
      }
      disk.files := disk.files[temp := Json(data.Snapshot())];
      if !moveOk {
        disk.files := disk.files - {temp};
        return Ok(false);
      }
      disk.files := disk.files[cacheFile := disk.files[temp]] - {temp};
      return Ok(true);
    }

    /** The threshold rule of `check_cache_size`: clean up when the cache directory holds more than
        `max_size_mb * cleanup_threshold` MiB. */
    method CheckCacheSize(sizes: seq<nat>) returns (cleanup: bool)
      ensures cleanup <==> (Sum(sizes) as real) / 1048576.0 > maxSizeMb * cleanupThreshold
    {
      var total := 0;
      var i := 0;
      while i < |sizes|
        invariant 0 <= i <= |sizes| && total == Sum(sizes[..i])
      {
        assert sizes[..i + 1][..i] == sizes[..i];
        total := total + sizes[i];
        i := i + 1;
      }
      assert sizes[..i] == sizes;
      var totalMb := (total as real) / 1048576.0;
      cleanup := totalMb > maxSizeMb * cleanupThreshold;
    }
  }

  /** With the configured limits the rule is: more than 90 MiB. */
  lemma CleanupThreshold(total: nat)
    ensures (total as real) / 1048576.0 > 100.0 * 0.9 <==> total > 94371840
  {
  }
}
