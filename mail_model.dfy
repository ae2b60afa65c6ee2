/** `MailModel` (models/mail_model.py): the mail record and its dictionary form, whose `date` is
    ISO 8601 text as `datetime.isoformat()` writes it and `datetime.fromisoformat()` reads it. */
module MailModel {
  import opened Wrappers
  import opened PyStr
  import opened PyValue

  /** A naive `datetime.datetime`. */
  datatype DateTime = DateTime(year: nat, month: nat, day: nat, hour: nat, minute: nat, second: nat,
                               microsecond: nat)

  predicate IsLeap(y: nat) {
    (y % 4 == 0 && y % 100 != 0) || y % 400 == 0
  }

  function DaysInMonth(y: nat, m: nat): nat {
    if m == 2 then (if IsLeap(y) then 29 else 28)
    else if m == 4 || m == 6 || m == 9 || m == 11 then 30
    else 31
  }

  /** The values `datetime` accepts. */
  predicate ValidDateTime(d: DateTime) {
    1 <= d.year <= 9999 && 1 <= d.month <= 12 && 1 <= d.day <= DaysInMonth(d.year, d.month)
    && d.hour < 24 && d.minute < 60 && d.second < 60 && d.microsecond < 1000000
  }

  function Pow10(w: nat): (p: nat)
    ensures p >= 1
  {
    if w == 0 then 1 else 10 * Pow10(w - 1)
  }

  /** `n` written with exactly `w` decimal digits, zero-padded (`%0wd` for `n < 10^w`). */
  function PadNat(n: nat, w: nat): (r: string)
    ensures |r| == w && forall k :: 0 <= k < w ==> IsDigit(r[k])
  {
    if w == 0 then "" else PadNat(n / 10, w - 1) + [DigitChar(n % 10)]
  }

  /** The value of a string of decimal digits; `None` when it holds anything else. */
  function ParseNat(s: string): Option<nat>
  {
    if s == [] then Some(0)
    else
      var last := s[|s| - 1];
      if !IsDigit(last) then None
      else
        match ParseNat(s[..|s| - 1])
        case None => None
        case Some(v) => Some(v * 10 + (last as int - '0' as int))
  }

  /** Reading back a padded number gives the number. */
  lemma {:induction false} ParsePadNat(n: nat, w: nat)
    requires n < Pow10(w)
    ensures ParseNat(PadNat(n, w)) == Some(n)
  {
    if w > 0 {
      ParsePadNat(n / 10, w - 1);
      var p := PadNat(n, w);
      assert p[..|p| - 1] == PadNat(n / 10, w - 1);
    }
  }

  /** `YYYY-MM-DD`. */
  function DatePart(d: DateTime): (r: string)
    ensures |r| == 10
  {
    PadNat(d.year, 4) + "-" + PadNat(d.month, 2) + "-" + PadNat(d.day, 2)
  }

  /** `HH:MM:SS`. */
  function TimePart(d: DateTime): (r: string)
    ensures |r| == 8
  {
    PadNat(d.hour, 2) + ":" + PadNat(d.minute, 2) + ":" + PadNat(d.second, 2)
  }

  /** `.ffffff` when there are microseconds, nothing otherwise. */
  function FractionPart(d: DateTime): (r: string)
    ensures |r| == if d.microsecond == 0 then 0 else 7
  {
    if d.microsecond != 0 then "." + PadNat(d.microsecond, 6) else ""
  }

  /** `datetime.isoformat()`: `YYYY-MM-DDTHH:MM:SS`, then `.ffffff` when there are microseconds. */
  function IsoFormat(d: DateTime): (r: string)
    ensures |r| == if d.microsecond == 0 then 19 else 26
  {
    DatePart(d) + "T" + TimePart(d) + FractionPart(d)
  }

  /** Reads three numbers of widths `w0`, `w1`, `w2` separated by `sep`; `None` for any other shape. */
  function ParseTriple(s: string, w0: nat, w1: nat, w2: nat, sep: char): (r: Option<(nat, nat, nat)>)
  {
    if |s| != w0 + w1 + w2 + 2 || s[w0] != sep || s[w0 + w1 + 1] != sep then None
    else
      var a, b, c := ParseNat(s[..w0]), ParseNat(s[w0 + 1..w0 + 1 + w1]), ParseNat(s[w0 + w1 + 2..]);
      if a.Some? && b.Some? && c.Some? then Some((a.value, b.value, c.value)) else None
  }

  lemma ParseTriplePad(a: nat, b: nat, c: nat, w0: nat, w1: nat, w2: nat, sep: char)
    requires a < Pow10(w0) && b < Pow10(w1) && c < Pow10(w2)
    ensures ParseTriple(PadNat(a, w0) + [sep] + PadNat(b, w1) + [sep] + PadNat(c, w2), w0, w1, w2, sep)
            == Some((a, b, c))
  {
    var pa, pb, pc := PadNat(a, w0), PadNat(b, w1), PadNat(c, w2);
    var s := pa + [sep] + pb + [sep] + pc;
    var l := pa + [sep] + pb;
    assert s == l + [sep] + pc;
    assert |s| == w0 + w1 + w2 + 2;
    assert s[w0] == sep && s[w0 + w1 + 1] == sep;
    assert s[..w0] == pa;
    assert s[w0 + 1..w0 + 1 + w1] == pb;
    assert s[w0 + w1 + 2..] == pc;
    ParsePadNat(a, w0);
    ParsePadNat(b, w1);
    ParsePadNat(c, w2);
    assert ParseNat(s[..w0]) == Some(a);
    assert ParseNat(s[w0 + 1..w0 + 1 + w1]) == Some(b);
    assert ParseNat(s[w0 + w1 + 2..]) == Some(c);
  }

  /** `datetime.fromisoformat(s)` for the two shapes `isoformat` writes (any character may separate
      date and time); `None` is the `ValueError` it raises. */
  function FromIsoFormat(s: string): (r: Option<DateTime>)
    ensures r.Some? ==> ValidDateTime(r.value)
  {
    if !(|s| == 19 || (|s| == 26 && s[19] == '.')) then None
    else
      var micro := if |s| == 26 then ParseNat(s[20..]) else Some(0);
      match (ParseTriple(s[..10], 4, 2, 2, '-'), ParseTriple(s[11..19], 2, 2, 2, ':'), micro)
      case (Some((y, mo, dd)), Some((h, mi, se)), Some(us)) =>
        var d := DateTime(y, mo, dd, h, mi, se, us);
        if ValidDateTime(d) then Some(d) else None
      case _ => None
  }

  /** `fromisoformat(d.isoformat()) == d`. */
  lemma IsoFormatRoundTrip(d: DateTime)
    requires ValidDateTime(d)
    ensures FromIsoFormat(IsoFormat(d)) == Some(d)
  {
    var s := IsoFormat(d);
    assert s[..10] == DatePart(d);
    assert s[11..19] == TimePart(d);
    ParseTriplePad(d.year, d.month, d.day, 4, 2, 2, '-');
    ParseTriplePad(d.hour, d.minute, d.second, 2, 2, 2, ':');
    if d.microsecond != 0 {
      assert s[19] == '.';
      assert s[20..] == PadNat(d.microsecond, 6);
      ParsePadNat(d.microsecond, 6);
    }
  }

  datatype MailModel = MailModel(date: DateTime, subject: Value, body: Value, sender: Value, to: Value,
                                 hasAttachments: Value)

  const Keys: set<string> := {"date", "subject", "body", "sender", "to", "has_attachments"}

  /** `to_dict`: the six keys, every field copied except the date, which becomes its ISO text. */
  function ToDict(m: MailModel): (r: map<string, Value>)
    ensures r.Keys == Keys
    ensures r["date"] == Str(IsoFormat(m.date))
    ensures r["subject"] == m.subject && r["body"] == m.body && r["sender"] == m.sender
    ensures r["to"] == m.to && r["has_attachments"] == m.hasAttachments
  {
    map["date" := Str(IsoFormat(m.date)), "subject" := m.subject, "body" := m.body,
        "sender" := m.sender, "to" := m.to, "has_attachments" := m.hasAttachments]
  }

  /** The keys `from_dict` reads after `date`, in the order it reads them. */
  const OtherKeys: seq<string> := ["subject", "body", "sender", "to", "has_attachments"]

  /** The first of `keys` missing from `data`. */
  function FirstMissing(data: map<string, Value>, keys: seq<string>): (r: Option<string>)
    ensures r.None? <==> forall k :: 0 <= k < |keys| ==> keys[k] in data
    ensures r.Some? ==> r.value in keys && r.value !in data
  {
    if keys == [] then None
    else if keys[0] !in data then Some(keys[0])
    else
      var r := FirstMissing(data, keys[1..]);
      assert forall k :: 1 <= k < |keys| ==> keys[k] == keys[1..][k - 1];
      r
  }

  /** `from_dict`: `Raised` for a missing key (`KeyError`), a non-string date (`TypeError`) or
      date text it cannot read (`ValueError`). */
  function FromDict(data: map<string, Value>): (r: Result<MailModel>)
    ensures r.Ok? ==> Keys <= data.Keys
    ensures r.Ok? ==> data["date"].Str? && FromIsoFormat(data["date"].s) == Some(r.value.date)
    ensures r.Ok? ==> r.value.subject == data["subject"] && r.value.body == data["body"]
                      && r.value.sender == data["sender"] && r.value.to == data["to"]
                      && r.value.hasAttachments == data["has_attachments"]
    ensures !(Keys <= data.Keys) ==> r.Raised?
  {
    if "date" !in data then Raised("KeyError: 'date'")
    else if !data["date"].Str? then Raised("TypeError: fromisoformat: argument must be str")
    else
      match FromIsoFormat(data["date"].s)
      case None => Raised("ValueError: Invalid isoformat string")
      case Some(d) =>
        match FirstMissing(data, OtherKeys)
        case Some(k) => Raised("KeyError: '" + k + "'")
        case None =>
          assert forall k :: k in Keys ==> k == "date" || k in OtherKeys;
          Ok(MailModel(d, data["subject"], data["body"], data["sender"], data["to"], data["has_attachments"]))
  }

  /** `MailModel.from_dict(m.to_dict())` reproduces all six fields of `m`. */
  lemma FromDictToDict(m: MailModel)
    requires ValidDateTime(m.date)
    ensures FromDict(ToDict(m)) == Ok(m)
  {
    IsoFormatRoundTrip(m.date);
    assert FirstMissing(ToDict(m), OtherKeys).None?;
  }
}
