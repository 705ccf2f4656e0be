/** The raw events of the OpenCode stream and what a text delta means to the timeline. */
module OpencodeEvents {
  import opened Wrappers

  const MAX_PENDING_DELTA_BYTES: nat := 8 * 1024
  const DELTA_FLUSH_DELAY: nat := 40

  datatype Value =
    | Null
    | Bool(flag: bool)
    | Number(n: int)
    | Str(s: string)
    | Array(items: seq<Value>)
    | Object(fields: map<string, Value>)

  datatype Raw = Raw(
    id: Option<string>,
    eventType: string,
    created: Option<nat>,
    location: Option<Value>,
    data: Value)

  function Field(data: Value, key: string): Option<Value> {
    if data.Object? && key in data.fields then Some(data.fields[key]) else None
  }

  function AsStr(value: Option<Value>): Option<string> {
    if value.Some? && value.value.Str? then Some(value.value.s) else None
  }

  function MessageId(data: Value): Option<string> {
    AsStr(if Field(data, "assistantMessageID").Some? then Field(data, "assistantMessageID")
          else Field(data, "messageID"))
  }

  predicate IsDelta(raw: Raw) {
    && raw.eventType in {"session.text.delta", "session.reasoning.delta"}
    && AsStr(Field(raw.data, "sessionID")).Some?
    && MessageId(raw.data).Some?
    && AsStr(Field(raw.data, "delta")).Some?
  }

  function DeltaOf(raw: Raw): string
    requires IsDelta(raw)
  {
    raw.data.fields["delta"].s
  }

  /** The payload besides the text itself. */
  function Metadata(raw: Raw): map<string, Value>
    requires raw.data.Object?
  {
    raw.data.fields - {"delta"}
  }

  /** Two deltas of equal type, location and other payload continue one another. */
  predicate SameRun(a: Raw, b: Raw)
    requires IsDelta(a) && IsDelta(b)
  {
    a.eventType == b.eventType && a.location == b.location && Metadata(a) == Metadata(b)
  }

  // ---------------------------------------------------------------------------
  // Batches of deltas.

  /** Adjacent deltas that continue one another. */
  ghost predicate IsRun(batch: seq<Raw>) {
    && batch != []
    && (forall i :: 0 <= i < |batch| ==> IsDelta(batch[i]))
    && (forall i :: 0 <= i < |batch| ==> SameRun(batch[0], batch[i]))
  }

  function JoinedText(batch: seq<Raw>): string
    requires forall i :: 0 <= i < |batch| ==> IsDelta(batch[i])
  {
    if batch == [] then "" else JoinedText(batch[..|batch| - 1]) + DeltaOf(batch[|batch| - 1])
  }

  function WithDelta(raw: Raw, text: string): Raw
    requires raw.data.Object?
  {
    raw.(data := Object(raw.data.fields["delta" := Str(text)]))
  }

  /** The one event a run is handed on as: the first of the run, carrying all of its text. */
  ghost function Merged(batch: seq<Raw>): Raw
    requires IsRun(batch)
  {
    WithDelta(batch[0], JoinedText(batch))
  }

  lemma MergedOne(raw: Raw)
    requires IsDelta(raw)
    ensures IsRun([raw]) && Merged([raw]) == raw
  {
    assert [raw][..0] == [];
    assert JoinedText([raw]) == "" + DeltaOf(raw) == DeltaOf(raw);
    assert raw.data.fields["delta" := Str(DeltaOf(raw))] == raw.data.fields;
  }

  lemma WithDeltaIsDelta(raw: Raw, text: string)
    requires IsDelta(raw)
    ensures IsDelta(WithDelta(raw, text)) && DeltaOf(WithDelta(raw, text)) == text
    ensures SameRun(raw, WithDelta(raw, text))
  {
  }

  /** It is the first of the run in all but its text, and agrees with each piece on everything
      that says where the text goes. */
  lemma MergedIsTheFirst(batch: seq<Raw>, i: nat)
    requires IsRun(batch) && i < |batch|
    ensures var whole := Merged(batch);
      && whole == batch[0].(data := whole.data)
      && IsDelta(whole) && DeltaOf(whole) == JoinedText(batch)
      && whole.eventType == batch[i].eventType && whole.location == batch[i].location
      && Metadata(whole) == Metadata(batch[i])
  {
    WithDeltaIsDelta(batch[0], JoinedText(batch));
  }

  // ---------------------------------------------------------------------------
  // What a delta does: append to its row.

  datatype RowKey = RowKey(session: string, message: string, ordinal: nat, reasoning: bool)

  function OrdinalOf(data: Value): nat {
    var ordinal := Field(data, "ordinal");
    if ordinal.Some? && ordinal.value.Number? && ordinal.value.n >= 0 then ordinal.value.n else 0
  }

  function RowOf(raw: Raw): RowKey
    requires IsDelta(raw)
  {
    RowKey(AsStr(Field(raw.data, "sessionID")).value, MessageId(raw.data).value,
           OrdinalOf(raw.data), raw.eventType == "session.reasoning.delta")
  }

  function Append(rows: map<RowKey, string>, key: RowKey, text: string): map<RowKey, string> {
    rows[key := (if key in rows then rows[key] else "") + text]
  }

  lemma SameRunSameRow(a: Raw, b: Raw)
    requires IsDelta(a) && IsDelta(b) && SameRun(a, b)
    ensures RowOf(a) == RowOf(b)
  {
    MetadataField(a, b, "sessionID");
    MetadataField(a, b, "assistantMessageID");
    MetadataField(a, b, "messageID");
    MetadataField(a, b, "ordinal");
  }

  lemma MetadataField(a: Raw, b: Raw, key: string)
    requires a.data.Object? && b.data.Object? && Metadata(a) == Metadata(b) && key != "delta"
    ensures Field(a.data, key) == Field(b.data, key)
  {
    assert key in Metadata(a) <==> key in a.data.fields;
    assert key in Metadata(b) <==> key in b.data.fields;
    if key in a.data.fields {
      assert Metadata(a)[key] == Metadata(b)[key];
    }
  }
}
