/** A log record as it becomes a stanza entry and a log record again. */
module LogRecords {
  import opened PData
  import opened ValueRoundTrip
  import opened Words

  /** `flags` is the 32-bit word; ids are 16 and 8 bytes, all zero when absent. */
  datatype Record = Record(timestamp: Word, observed: Word, severity: int, severityText: string,
                           attributes: map<string, Value>, droppedAttributes: nat, body: Value,
                           traceId: seq<bv8>, spanId: seq<bv8>, flags: nat, eventName: string)

  predicate RecordOk(r: Record) {
    |r.traceId| == 16 && |r.spanId| == 8
  }

  /** Times are signed nanoseconds; None stands for Go's zero time. */
  datatype Entry = Entry(resource: map<string, Raw>, scopeName: string,
                         timestamp: Option<int>, observed: int, severity: nat, severityText: string,
                         attributes: map<string, Raw>, body: Raw,
                         traceId: Option<seq<bv8>>, spanId: Option<seq<bv8>>, traceFlags: seq<nat>)

  function Zeros(n: nat): seq<bv8> { seq(n, _ => 0) }

  // ---------------------------------------------------------------- severities

  /** The texts of the severities 0 (default) to 24, in groups of four numbered from 2. */
  const SEVERITY_TEXTS: seq<string> := [
    "",
    "TRACE", "TRACE2", "TRACE3", "TRACE4", "DEBUG", "DEBUG2", "DEBUG3", "DEBUG4",
    "INFO", "INFO2", "INFO3", "INFO4", "WARN", "WARN2", "WARN3", "WARN4",
    "ERROR", "ERROR2", "ERROR3", "ERROR4", "FATAL", "FATAL2", "FATAL3", "FATAL4"]

  /** `fromPdataSevMap`: a number outside 0 to 24 is not in the map and gives the default severity. */
  function FromPdataSeverity(n: int): nat { if 0 <= n <= 24 then n else 0 }

  /** `sevMap`: what is not in the map gives the unspecified severity. */
  function ToPdataSeverity(s: nat): int { if s <= 24 then s else 0 }

  function DefaultText(s: nat): string { if s < |SEVERITY_TEXTS| then SEVERITY_TEXTS[s] else "" }

  // ---------------------------------------------------------------- the two conversions

  /** `convertFrom`, with the resource and scope that `plogToEntries` sets; `now` is the present. */
  function ConvertFrom(src: Record, resource: map<string, Value>, scopeName: string, now: int): Entry {
    Entry(AsRaw(Map(resource)).m, scopeName,
          if src.timestamp != 0 then Some(Signed(src.timestamp)) else None,
          if src.observed == 0 then now else Signed(src.observed),
          FromPdataSeverity(src.severity), src.severityText,
          AsRaw(Map(src.attributes)).m, AsRaw(src.body),
          if src.traceId != Zeros(16) then Some(src.traceId) else None,
          if src.spanId != Zeros(8) then Some(src.spanId) else None,
          if src.flags != 0 then [src.flags % 256] else [])
  }

  /** The id in a buffer of `n` bytes: padded on the left, or cut off on the right. */
  function Buffer(id: seq<bv8>, n: nat): (b: seq<bv8>)
    ensures |b| == n
  { if |id| <= n then Zeros(n - |id|) + id else id[..n] }

  /** `convertInto` into a fresh record, whose count of dropped attributes and event name nothing sets. */
  function ConvertInto(ent: Entry): Record {
    Record(if ent.timestamp.Some? then Unsigned(ent.timestamp.value) else 0,
           Unsigned(ent.observed),
           ToPdataSeverity(ent.severity),
           if ent.severityText == "" then DefaultText(ent.severity) else ent.severityText,
           Upsert(RawMap(ent.attributes)).m, 0,
           if ent.body != Nil then Upsert(ent.body) else Empty,
           if ent.traceId.Some? then Buffer(ent.traceId.value, 16) else Zeros(16),
           if ent.spanId.Some? then Buffer(ent.spanId.value, 8) else Zeros(8),
           if |ent.traceFlags| > 0 then ent.traceFlags[0] else 0, "")
  }

  function Back(r: Record, now: int): Record { ConvertInto(ConvertFrom(r, map[], "", now)) }

  lemma IdBack(id: seq<bv8>, n: nat)
    requires |id| == n
    ensures Buffer(id, n) == id
  {
    assert Zeros(0) + id == id;
  }

  lemma OnlyDefaultIsBlank(s: nat)
    ensures DefaultText(s) == "" <==> s == 0 || s > 24
  {}

  /** The name of a severity number: six names for four numbers each, from TRACE at 1 to FATAL at 21, with 2 to 4 after
      the name for those that are not the first of their four; any other number has no name. */
  predicate NamesSeverity(n: int, text: string) {
    if 1 <= n <= 24 then
      var name := if n <= 4 then "TRACE" else if n <= 8 then "DEBUG" else if n <= 12 then "INFO"
                  else if n <= 16 then "WARN" else if n <= 20 then "ERROR" else "FATAL";
      text == name + if n % 4 == 1 then "" else if n % 4 == 2 then "2" else if n % 4 == 3 then "3" else "4"
    else text == ""
  }

  lemma DefaultTextNames(n: int)
    ensures NamesSeverity(n, DefaultText(FromPdataSeverity(n)))
  {
    if 1 <= n <= 12 { FirstTexts(n); } else if 13 <= n <= 24 { LastTexts(n); }
  }

  lemma FirstTexts(n: int)
    requires 1 <= n <= 12
    ensures NamesSeverity(n, DefaultText(n))
  {
    assert "TRACE" + "" == "TRACE" && "DEBUG" + "" == "DEBUG" && "INFO" + "" == "INFO";
  }

  lemma LastTexts(n: int)
    requires 13 <= n <= 24
    ensures NamesSeverity(n, DefaultText(n))
  {
    assert "WARN" + "" == "WARN" && "ERROR" + "" == "ERROR" && "FATAL" + "" == "FATAL";
  }

  /** A time in an entry is the signed reading of that of the record. */
  predicate TellsTime(i: int, w: Word) {
    -0x8000_0000_0000_0000 <= i < 0x8000_0000_0000_0000 && (i == w || i == w - 0x1_0000_0000_0000_0000)
  }

  /** An id is in the entry unless it is all zeros. */
  predicate TellsId(id: seq<bv8>, o: Option<seq<bv8>>) {
    if exists i :: 0 <= i < |id| && id[i] != 0 then o == Some(id) else o == None
  }

  /** What the entry of a record says, field by field. */
  lemma EntryTells(r: Record, resource: map<string, Value>, scopeName: string, now: int)
    requires RecordOk(r)
    ensures var e := ConvertFrom(r, resource, scopeName, now);
      && e.scopeName == scopeName && e.severityText == r.severityText
      && (if r.timestamp == 0 then e.timestamp == None
          else e.timestamp.Some? && TellsTime(e.timestamp.value, r.timestamp))
      && (if r.observed == 0 then e.observed == now else TellsTime(e.observed, r.observed))
      && e.severity == (if 0 <= r.severity <= 24 then r.severity else 0)
      && RawMap(e.resource) == AsRaw(Map(resource)) && RawMap(e.attributes) == AsRaw(Map(r.attributes))
      && e.body == AsRaw(r.body) && TellsId(r.traceId, e.traceId) && TellsId(r.spanId, e.spanId)
      && e.traceFlags == if r.flags == 0 then [] else [r.flags % 256]
  {
    ZeroId(r.traceId);
    ZeroId(r.spanId);
  }

  lemma ZeroId(id: seq<bv8>)
    ensures id == Zeros(|id|) <==> forall i :: 0 <= i < |id| ==> id[i] == 0
  {}

  /** The id of a record: that of the entry with zero bytes before it, or as much of its front as there is room for. */
  predicate ReadsId(o: Option<seq<bv8>>, n: nat, id: seq<bv8>) {
    && |id| == n
    && if o.None? then forall i :: 0 <= i < n ==> id[i] == 0
       else if |o.value| > n then id == o.value[..n]
       else id[n - |o.value|..] == o.value && forall i :: 0 <= i < n - |o.value| ==> id[i] == 0
  }

  /** A 64-bit time is the number itself, up to multiples of 2^64. */
  ghost predicate ReadsTime(i: int, w: Word) { exists k: int :: i == w + k * 0x1_0000_0000_0000_0000 }

  lemma TimeRead(i: int)
    ensures ReadsTime(i, Unsigned(i))
  {
    assert i == Unsigned(i) + (i / TWO64) * 0x1_0000_0000_0000_0000;
  }

  /** What the record of any entry says, field by field. */
  lemma RecordTells(e: Entry)
    ensures var r := ConvertInto(e);
      && (if e.timestamp.None? then r.timestamp == 0 else ReadsTime(e.timestamp.value, r.timestamp))
      && ReadsTime(e.observed, r.observed)
      && r.severity == (if e.severity <= 24 then e.severity else 0)
      && (if e.severityText == "" then NamesSeverity(r.severity, r.severityText) else r.severityText == e.severityText)
      && Becomes(RawMap(e.attributes), Map(r.attributes))
      && (if e.body == Nil then r.body == Empty else Becomes(e.body, r.body))
      && ReadsId(e.traceId, 16, r.traceId) && ReadsId(e.spanId, 8, r.spanId)
      && r.flags == (if e.traceFlags == [] then 0 else e.traceFlags[0])
      && r.droppedAttributes == 0 && r.eventName == ""
  {
    TimeRead(e.observed);
    if e.timestamp.Some? { TimeRead(e.timestamp.value); }
    DefaultTextNames(if e.severity <= 24 then e.severity else 0);
    UpsertBecomes(RawMap(e.attributes));
    UpsertBecomes(e.body);
    IdRead(e.traceId, 16);
    IdRead(e.spanId, 8);
  }

  lemma IdRead(o: Option<seq<bv8>>, n: nat)
    ensures ReadsId(o, n, if o.Some? then Buffer(o.value, n) else Zeros(n))
  {
    if o.Some? && |o.value| <= n { assert Buffer(o.value, n)[n - |o.value|..] == o.value; }
  }

  /** What a record is after the pipeline, field by field. */
  lemma FieldsBack(r: Record, now: int)
    requires RecordOk(r)
    ensures var b := Back(r, now);
      && b.timestamp == r.timestamp
      && b.observed == (if r.observed == 0 then now % TWO64 else r.observed)
      && b.severity == (if 0 <= r.severity <= 24 then r.severity else 0)
      && (if r.severityText == "" then NamesSeverity(r.severity, b.severityText) else b.severityText == r.severityText)
      && b.traceId == r.traceId && b.spanId == r.spanId
      && b.flags == r.flags % 256
      && b.droppedAttributes == 0 && b.eventName == ""
      && (b.attributes == r.attributes <==> Faithful(Map(r.attributes)))
      && (b.body == r.body <==> r.body.Empty? || Faithful(r.body))
  {
    SignedBack(r.timestamp);
    SignedBack(r.observed);
    IdBack(r.traceId, 16);
    IdBack(r.spanId, 8);
    AttributesBack(r, now);
    BodyBack(r, now);
    DefaultTextNames(r.severity);
  }

  lemma AttributesBack(r: Record, now: int)
    ensures Back(r, now).attributes == r.attributes <==> Faithful(Map(r.attributes))
  {
    RoundTripExactly(Map(r.attributes));
    assert Upsert(AsRaw(Map(r.attributes))) == Map(Back(r, now).attributes);
  }

  lemma BodyBack(r: Record, now: int)
    ensures Back(r, now).body == r.body <==> r.body.Empty? || Faithful(r.body)
  {
    RoundTripExactly(r.body);
    assert AsRaw(r.body) == Nil <==> r.body.Empty?;
  }

  /** A record comes through unchanged exactly when it has an observed time (or none and the clock stands at the
      epoch), a severity from 0 to 24 with a text unless it is 0, flags of one byte, no dropped attributes, no event
      name, and faithful attributes and body. */
  lemma RecordRoundTripExactly(r: Record, now: int)
    requires RecordOk(r)
    ensures Back(r, now) == r <==>
      && (r.observed != 0 || now % TWO64 == 0)
      && 0 <= r.severity <= 24 && (r.severityText != "" || r.severity == 0)
      && r.flags < 256 && r.droppedAttributes == 0 && r.eventName == ""
      && Faithful(Map(r.attributes)) && (r.body.Empty? || Faithful(r.body))
  {
    FieldsBack(r, now);
    OnlyDefaultIsBlank(FromPdataSeverity(r.severity));
    DefaultTextNames(r.severity);
  }
}
