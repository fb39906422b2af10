/**
 The persistent control record of a managed site root: 40 bytes holding a magic
 number, the immutable limits and a publication generation.
 */
module ControlRecord {
  import opened Bytes

  const RECORD_LEN: nat := 40
  const GENERATION_OFFSET: nat := 32

  /** "LNTXST02" */
  const MAGIC: seq<Byte> := [76, 78, 84, 88, 83, 84, 48, 50]

  datatype Limits = Limits(bytes: Option<U64>, entries: Option<U64>)

  datatype Record = Record(limits: Limits, generation: U64)

  datatype Resource = LogicalFileBytes | NamespaceEntries

  datatype StorageError =
    | Busy
    | LimitExceeded(resource: Resource, limit: U64, required: U64)
    | PolicyMismatch
    | BindingRequired
    | InvalidPolicy
    | UnsupportedRoot
    | Io
    | Overflow

  function Flag(o: Option<U64>): Byte {
    if o.Some? then 1 else 0
  }

  function ValueOrZero(o: Option<U64>): U64 {
    if o.Some? then o.value else 0
  }

  /** The bytes of a freshly installed record, generation zero. */
  function Encoding(limits: Limits): (s: seq<Byte>)
    ensures |s| == RECORD_LEN
  {
    MAGIC + [Flag(limits.bytes), Flag(limits.entries)] + [0, 0, 0, 0, 0, 0]
    + ToLe(ValueOrZero(limits.bytes), 8) + ToLe(ValueOrZero(limits.entries), 8)
    + [0, 0, 0, 0, 0, 0, 0, 0]
  }

  /** `copy_from_slice` into part of an array. */
  method CopyInto(a: array<Byte>, at: nat, s: seq<Byte>)
    requires at + |s| <= a.Length
    modifies a
    ensures a[..] == old(a[..at]) + s + old(a[at + |s|..])
  {
    var i := 0;
    while i < |s|
      invariant 0 <= i <= |s|
      invariant a[..] == old(a[..at]) + s[..i] + old(a[at + i..])
    {
      a[at + i] := s[i];
      i := i + 1;
    }
    assert s[..i] == s;
  }

  method Encode(limits: Limits) returns (bytes: array<Byte>)
    ensures fresh(bytes)
    ensures bytes[..] == Encoding(limits)
  {
    bytes := new Byte[RECORD_LEN](_ => 0);
    ghost var zeros := seq(RECORD_LEN, _ => 0 as Byte);
    assert bytes[..] == zeros;
    CopyInto(bytes, 0, MAGIC);
    assert bytes[..] == MAGIC + zeros[8..];
    CopyInto(bytes, 8, [Flag(limits.bytes), Flag(limits.entries)]);
    ghost var head := MAGIC + [Flag(limits.bytes), Flag(limits.entries)];
    assert bytes[..] == head + zeros[10..];
    assert bytes[..16] == head + zeros[10..16];
    assert bytes[24..] == zeros[24..];
    CopyInto(bytes, 16, ToLe(ValueOrZero(limits.bytes), 8));
    assert bytes[..] == head + zeros[10..16] + ToLe(ValueOrZero(limits.bytes), 8) + zeros[24..];
    CopyInto(bytes, 24, ToLe(ValueOrZero(limits.entries), 8));
    assert zeros[10..16] == [0, 0, 0, 0, 0, 0];
    assert zeros[32..] == [0, 0, 0, 0, 0, 0, 0, 0];
  }

  function Field(bytes: seq<Byte>, at: nat): (n: U64)
    requires at + 8 <= |bytes|
    ensures ToLe(n, 8) == bytes[at..at + 8]
  {
    LeInjective(bytes[at..at + 8]);
    Pow256Values();
    FromLe(bytes[at..at + 8])
  }

  function Decode(bytes: seq<Byte>): Result<Record, StorageError> {
    if || |bytes| != RECORD_LEN
       || bytes[..8] != MAGIC
       || bytes[8] > 1
       || bytes[9] > 1
       || bytes[10..16] != [0, 0, 0, 0, 0, 0]
    then Err(InvalidPolicy)
    else
      var bytesValue := Field(bytes, 16);
      var entriesValue := Field(bytes, 24);
      var generation := Field(bytes, 32);
      if (bytes[8] == 0 && bytesValue != 0) || (bytes[9] == 0 && entriesValue != 0)
      then Err(InvalidPolicy)
      else
        Ok(Record(
             Limits(if bytes[8] == 1 then Some(bytesValue) else None,
                    if bytes[9] == 1 then Some(entriesValue) else None),
             generation))
  }

  /** The record of a control file: an empty file holds none yet. */
  function ReadRecord(content: seq<Byte>): Result<Option<Record>, StorageError> {
    if |content| == 0 then Ok(None)
    else if |content| == RECORD_LEN then
      match Decode(content)
      case Ok(record) => Ok(Some(record))
      case Err(error) => Err(error)
    else Err(InvalidPolicy)
  }

  /** Eight bytes written at the generation offset; a shorter file is zero-filled up to it. */
  function WithGeneration(content: seq<Byte>, generation: U64): (s: seq<Byte>)
    ensures |content| == RECORD_LEN ==> |s| == RECORD_LEN
  {
    var padded := if |content| < GENERATION_OFFSET
                  then content + seq(GENERATION_OFFSET - |content|, _ => 0) else content;
    padded[..GENERATION_OFFSET] + ToLe(generation, 8)
    + if |padded| > RECORD_LEN then padded[RECORD_LEN..] else []
  }

  lemma {:induction false} FieldOf(bytes: seq<Byte>, at: nat, n: U64)
    requires at + 8 <= |bytes|
    requires bytes[at..at + 8] == ToLe(n, 8)
    ensures Field(bytes, at) == n
  {
    Pow256Values();
    LeRoundTrip(n, 8);
  }

  /** Decoding an installed record yields its limits and whatever generation was patched in. */
  lemma RecordRoundTrip(limits: Limits, generation: U64)
    ensures ReadRecord(WithGeneration(Encoding(limits), generation)) == Ok(Some(Record(limits, generation)))
  {
    var bytes := WithGeneration(Encoding(limits), generation);
    assert bytes[..8] == MAGIC;
    assert bytes[10..16] == [0, 0, 0, 0, 0, 0];
    assert bytes[16..24] == ToLe(ValueOrZero(limits.bytes), 8);
    assert bytes[24..32] == ToLe(ValueOrZero(limits.entries), 8);
    assert bytes[32..40] == ToLe(generation, 8);
    FieldOf(bytes, 16, ValueOrZero(limits.bytes));
    FieldOf(bytes, 24, ValueOrZero(limits.entries));
    FieldOf(bytes, 32, generation);
  }

  /** The encoding itself is generation zero. */
  lemma FreshGeneration(limits: Limits)
    ensures WithGeneration(Encoding(limits), 0) == Encoding(limits)
    ensures ReadRecord(Encoding(limits)) == Ok(Some(Record(limits, 0)))
  {
    assert ToLe(0, 8) == [0] + ToLe(0, 7);
    assert ToLe(0, 6) == [0, 0] + ToLe(0, 4);
    assert ToLe(0, 4) == [0, 0] + ToLe(0, 2);
    assert ToLe(0, 8) == [0, 0, 0, 0, 0, 0, 0, 0];
    assert WithGeneration(Encoding(limits), 0) == Encoding(limits);
    RecordRoundTrip(limits, 0);
  }

  lemma DecodedFields(bytes: seq<Byte>, record: Record)
    requires ReadRecord(bytes) == Ok(Some(record))
    ensures |bytes| == RECORD_LEN
    ensures bytes[..8] == MAGIC && bytes[10..16] == [0, 0, 0, 0, 0, 0]
    ensures bytes[8] == Flag(record.limits.bytes) && bytes[9] == Flag(record.limits.entries)
    ensures bytes[16..24] == ToLe(ValueOrZero(record.limits.bytes), 8)
    ensures bytes[24..32] == ToLe(ValueOrZero(record.limits.entries), 8)
    ensures bytes[32..40] == ToLe(record.generation, 8)
  {
  }

  lemma Assembled(bytes: seq<Byte>)
    requires |bytes| == RECORD_LEN
    ensures bytes == bytes[..8] + [bytes[8], bytes[9]] + bytes[10..16] + bytes[16..24] + bytes[24..32] + bytes[32..40]
  {
  }

  /** Every accepted byte string is the one encoding of what it decodes to. */
  lemma RecordUnique(bytes: seq<Byte>, record: Record)
    ensures ReadRecord(bytes) == Ok(Some(record)) <==>
            bytes == WithGeneration(Encoding(record.limits), record.generation)
  {
    if ReadRecord(bytes) == Ok(Some(record)) {
      DecodedFields(bytes, record);
      Assembled(bytes);
      RecordRoundTrip(record.limits, record.generation);
      var again := WithGeneration(Encoding(record.limits), record.generation);
      DecodedFields(again, record);
      Assembled(again);
    } else {
      RecordRoundTrip(record.limits, record.generation);
    }
  }

  /** A bump changes the generation and nothing else. */
  lemma BumpKeepsLimits(content: seq<Byte>, record: Record, next: U64)
    requires ReadRecord(content) == Ok(Some(record))
    ensures ReadRecord(WithGeneration(content, next)) == Ok(Some(Record(record.limits, next)))
  {
    RecordUnique(content, record);
    assert WithGeneration(content, next) == WithGeneration(Encoding(record.limits), next);
    RecordRoundTrip(record.limits, next);
  }

  /** An installation that stops inside its one write leaves no readable record. */
  lemma TornInstallation(limits: Limits, written: nat)
    requires written < RECORD_LEN
    ensures ReadRecord(Encoding(limits)[..written]) == if written == 0 then Ok(None) else Err(InvalidPolicy)
  {
  }
}
