/** Recursive attribute values on the wire: the tree they form, how deep it is, and the check that never builds it. */
module WireValues {
  import opened Basics
  import opened Wire

  /** An AnyValue by its nested values: arrays (field 5) and key-value lists (field 6), each entry with its values. */
  datatype Value = Value(parts: seq<Part>)

  datatype Part = Array(items: seq<Value>) | KvList(entries: seq<Entry>)

  datatype Entry = Entry(values: seq<Value>)

  const ARRAY := 5
  const KVLIST := 6

  // ---------------------------------------------------------------- the tree

  function Push<T>(head: Option<T>, tail: Option<seq<T>>): Option<seq<T>> {
    if head.None? || tail.None? then None else Some([head.value] + tail.value)
  }

  function ParseValue(b: bytes): Option<Value>
    decreases |b|, 1
  {
    var parts := ParseParts(b);
    if parts.None? then None else Some(Value(parts.value))
  }

  function ParseParts(b: bytes): Option<seq<Part>>
    decreases |b|, 0
  {
    if b == [] then Some([])
    else
      var f := ReadField(b);
      if f.None? then None
      else
        var rest := ParseParts(b[|f.value.raw|..]);
        if IsMessage(f.value, ARRAY) then
          var items := ParseValues(f.value.value, 1);
          Push(if items.None? then None else Some(Array(items.value)), rest)
        else if IsMessage(f.value, KVLIST) then
          var entries := ParseEntries(f.value.value, 1);
          Push(if entries.None? then None else Some(KvList(entries.value)), rest)
        else rest
  }

  /** The values in the messages of one number. */
  function ParseValues(b: bytes, number: nat): Option<seq<Value>>
    decreases |b|, 0
  {
    if b == [] then Some([])
    else
      var f := ReadField(b);
      if f.None? then None
      else
        var rest := ParseValues(b[|f.value.raw|..], number);
        if IsMessage(f.value, number) then Push(ParseValue(f.value.value), rest) else rest
  }

  /** The key-value messages of one number, each with the values in its field 2. */
  function ParseEntries(b: bytes, number: nat): Option<seq<Entry>>
    decreases |b|, 0
  {
    if b == [] then Some([])
    else
      var f := ReadField(b);
      if f.None? then None
      else
        var rest := ParseEntries(b[|f.value.raw|..], number);
        if IsMessage(f.value, number) then
          var values := ParseValues(f.value.value, 2);
          Push(if values.None? then None else Some(Entry(values.value)), rest)
        else rest
  }

  // ---------------------------------------------------------------- how deep a tree is

  function Max(a: nat, b: nat): nat {
    if a < b then b else a
  }

  function Depth(v: Value): nat
    decreases v, 1
  {
    1 + PartsDepth(v.parts)
  }

  function PartsDepth(parts: seq<Part>): nat
    decreases parts, 0
  {
    if parts == [] then 0
    else
      Max(match parts[0]
          case Array(items) => ValuesDepth(items)
          case KvList(entries) => EntriesDepth(entries), PartsDepth(parts[1..]))
  }

  function ValuesDepth(vs: seq<Value>): nat
    decreases vs, 0
  {
    if vs == [] then 0 else Max(Depth(vs[0]), ValuesDepth(vs[1..]))
  }

  function EntriesDepth(es: seq<Entry>): nat
    decreases es, 0
  {
    if es == [] then 0 else Max(ValuesDepth(es[0].values), EntriesDepth(es[1..]))
  }

  // ---------------------------------------------------------------- the check

  /** One visit of walkFields, then the rest: a verdict or an error ends the walk. */
  function Walk(here: Option<bool>, rest: Option<bool>): Option<bool> {
    if here == Some(false) then rest else here
  }

  /** anyValueExceeds. */
  function ValueExceeds(b: bytes, depth: nat, maximum: nat): Option<bool>
    decreases |b|, 1
  {
    if depth > maximum then Some(true) else PartsExceed(b, depth, maximum)
  }

  function PartsExceed(b: bytes, depth: nat, maximum: nat): Option<bool>
    decreases |b|, 0
  {
    if b == [] then Some(false)
    else
      var f := ReadField(b);
      if f.None? then None
      else
        var rest := PartsExceed(b[|f.value.raw|..], depth, maximum);
        if IsMessage(f.value, ARRAY) then Walk(ValuesExceed(f.value.value, 1, depth + 1, maximum), rest)
        else if IsMessage(f.value, KVLIST) then Walk(EntriesExceed(f.value.value, 1, depth + 1, maximum), rest)
        else rest
  }

  /** anyMessageFieldExceeds over values. */
  function ValuesExceed(b: bytes, number: nat, depth: nat, maximum: nat): Option<bool>
    decreases |b|, 0
  {
    if b == [] then Some(false)
    else
      var f := ReadField(b);
      if f.None? then None
      else
        var rest := ValuesExceed(b[|f.value.raw|..], number, depth, maximum);
        if IsMessage(f.value, number) then Walk(ValueExceeds(f.value.value, depth, maximum), rest) else rest
  }

  /** anyMessageFieldExceeds over key-value messages; attributesExceed at depth 1. */
  function EntriesExceed(b: bytes, number: nat, depth: nat, maximum: nat): Option<bool>
    decreases |b|, 0
  {
    if b == [] then Some(false)
    else
      var f := ReadField(b);
      if f.None? then None
      else
        var rest := EntriesExceed(b[|f.value.raw|..], number, depth, maximum);
        if IsMessage(f.value, number) then Walk(ValuesExceed(f.value.value, 2, depth, maximum), rest) else rest
  }

  /** logRecordExceeds: the body first, then the attributes. */
  function RecordExceeds(b: bytes, maximum: nat): Option<bool> {
    Walk(ValuesExceed(b, 5, 1, maximum), EntriesExceed(b, 6, 1, maximum))
  }

  // ---------------------------------------------------------------- the check is the depth

  lemma {:induction false} ValueDepthExact(b: bytes, depth: nat, maximum: nat)
    requires ParseValue(b).Some? && 1 <= depth <= maximum + 1
    ensures ValueExceeds(b, depth, maximum) == Some(depth - 1 + Depth(ParseValue(b).value) > maximum)
    decreases |b|, 1
  {
    hide PartsDepth, ParseParts, PartsExceed;
    if depth <= maximum { PartsDepthExact(b, depth, maximum); }
  }

  lemma {:induction false} PartsDepthExact(b: bytes, depth: nat, maximum: nat)
    requires ParseParts(b).Some? && 1 <= depth <= maximum
    ensures PartsExceed(b, depth, maximum) == Some(depth + PartsDepth(ParseParts(b).value) > maximum)
    decreases |b|, 0
  {
    hide ReadField, ParseValues, ParseEntries, ValuesExceed, EntriesExceed, ValuesDepth, EntriesDepth;
    if b != [] {
      var f := ReadField(b).value;
      PartsDepthExact(b[|f.raw|..], depth, maximum);
      if IsMessage(f, ARRAY) { ValuesDepthExact(f.value, 1, depth + 1, maximum); }
      else if IsMessage(f, KVLIST) { EntriesDepthExact(f.value, 1, depth + 1, maximum); }
    }
  }

  lemma {:induction false} ValuesDepthExact(b: bytes, number: nat, depth: nat, maximum: nat)
    requires ParseValues(b, number).Some? && 1 <= depth <= maximum + 1
    ensures ValuesExceed(b, number, depth, maximum) ==
              Some(depth - 1 + ValuesDepth(ParseValues(b, number).value) > maximum)
    decreases |b|, 0
  {
    hide ReadField, ParseValue, ValueExceeds, Depth;
    if b != [] {
      var f := ReadField(b).value;
      ValuesDepthExact(b[|f.raw|..], number, depth, maximum);
      if IsMessage(f, number) { ValueDepthExact(f.value, depth, maximum); }
    }
  }

  lemma {:induction false} EntriesDepthExact(b: bytes, number: nat, depth: nat, maximum: nat)
    requires ParseEntries(b, number).Some? && 1 <= depth <= maximum + 1
    ensures EntriesExceed(b, number, depth, maximum) ==
              Some(depth - 1 + EntriesDepth(ParseEntries(b, number).value) > maximum)
    decreases |b|, 0
  {
    hide ReadField, ParseValues, ValuesExceed, ValuesDepth;
    if b != [] {
      var f := ReadField(b).value;
      EntriesDepthExact(b[|f.raw|..], number, depth, maximum);
      if IsMessage(f, number) { ValuesDepthExact(f.value, 2, depth, maximum); }
    }
  }

  /** A record whose body and attributes can be read. */
  predicate ReadableRecord(b: bytes) {
    ParseValues(b, 5).Some? && ParseEntries(b, 6).Some?
  }

  function RecordDepth(b: bytes): nat
    requires ReadableRecord(b)
  {
    Max(ValuesDepth(ParseValues(b, 5).value), EntriesDepth(ParseEntries(b, 6).value))
  }

  /** The streaming check says exactly whether the record nests beyond the limit. */
  lemma RecordDepthExact(b: bytes, maximum: nat)
    requires ReadableRecord(b)
    ensures RecordExceeds(b, maximum) == Some(RecordDepth(b) > maximum)
  {
    ValuesDepthExact(b, 5, 1, maximum);
    EntriesDepthExact(b, 6, 1, maximum);
    hide ParseValues, ParseEntries, ValuesExceed, EntriesExceed;
  }
}
