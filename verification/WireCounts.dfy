/** Structural nodes on the wire: what the bounded counter counts, and the budget it counts against. */
module WireCounts {
  import opened Basics
  import opened Wire
  import opened WireValues

  function Plus(a: Option<nat>, b: Option<nat>): Option<nat> {
    if a.None? || b.None? then None else Some(a.value + b.value)
  }

  // ---------------------------------------------------------------- counting on the wire

  /** countAnyValue: arrays first, then lists, nothing below the depth limit. */
  function CountValue(b: bytes, depth: nat, maximum: nat): Option<nat>
    decreases |b|, 1
  {
    if depth > maximum then Some(1)
    else Plus(Some(1), Plus(CountParts(b, ARRAY, depth, maximum), CountParts(b, KVLIST, depth, maximum)))
  }

  /** One pass over the arrays, or over the lists, of a value. */
  function CountParts(b: bytes, kind: nat, depth: nat, maximum: nat): Option<nat>
    decreases |b|, 0
  {
    if b == [] then Some(0)
    else
      var f := ReadField(b);
      if f.None? then None
      else
        var rest := CountParts(b[|f.value.raw|..], kind, depth, maximum);
        if !IsMessage(f.value, kind) then rest
        else
          Plus(Plus(Some(1), if kind == ARRAY then CountValues(f.value.value, 1, depth + 1, maximum)
                             else CountEntries(f.value.value, 1, depth + 1, maximum)), rest)
  }

  function CountValues(b: bytes, number: nat, depth: nat, maximum: nat): Option<nat>
    decreases |b|, 0
  {
    if b == [] then Some(0)
    else
      var f := ReadField(b);
      if f.None? then None
      else
        var rest := CountValues(b[|f.value.raw|..], number, depth, maximum);
        if IsMessage(f.value, number) then Plus(CountValue(f.value.value, depth, maximum), rest) else rest
  }

  /** countAttributes, and the entries of a list. */
  function CountEntries(b: bytes, number: nat, depth: nat, maximum: nat): Option<nat>
    decreases |b|, 0
  {
    if b == [] then Some(0)
    else
      var f := ReadField(b);
      if f.None? then None
      else
        var rest := CountEntries(b[|f.value.raw|..], number, depth, maximum);
        if IsMessage(f.value, number) then Plus(Plus(Some(1), CountValues(f.value.value, 2, depth, maximum)), rest)
        else rest
  }

  /** countLogRecord. */
  function CountRecord(b: bytes, maximum: nat): Option<nat> {
    Plus(CountValues(b, 5, 1, maximum), CountEntries(b, 6, 1, maximum))
  }

  // ---------------------------------------------------------------- nodes of the tree, down to the limit

  function Nodes(v: Value, depth: nat, maximum: nat): nat
    decreases v, 1
  {
    if depth > maximum then 1 else 1 + PartNodes(v.parts, depth, maximum)
  }

  function PartNodes(parts: seq<Part>, depth: nat, maximum: nat): nat
    decreases parts, 0
  {
    if parts == [] then 0
    else
      1 + (match parts[0]
           case Array(items) => ValueNodes(items, depth + 1, maximum)
           case KvList(entries) => EntryNodes(entries, depth + 1, maximum)) + PartNodes(parts[1..], depth, maximum)
  }

  function ValueNodes(vs: seq<Value>, depth: nat, maximum: nat): nat
    decreases vs, 0
  {
    if vs == [] then 0 else Nodes(vs[0], depth, maximum) + ValueNodes(vs[1..], depth, maximum)
  }

  function EntryNodes(es: seq<Entry>, depth: nat, maximum: nat): nat
    decreases es, 0
  {
    if es == [] then 0 else 1 + ValueNodes(es[0].values, depth, maximum) + EntryNodes(es[1..], depth, maximum)
  }

  /** The two passes over one value together count each of its parts once. */
  lemma {:induction false} ValueCountExact(b: bytes, depth: nat, maximum: nat)
    requires ParseValue(b).Some?
    ensures CountValue(b, depth, maximum) == Some(Nodes(ParseValue(b).value, depth, maximum))
    decreases |b|, 1
  {
    hide CountParts, PartNodes, ParseParts;
    if depth <= maximum { PartsCountExact(b, depth, maximum); }
  }

  lemma {:induction false} PartsCountExact(b: bytes, depth: nat, maximum: nat)
    requires ParseParts(b).Some? && depth <= maximum
    ensures Plus(CountParts(b, ARRAY, depth, maximum), CountParts(b, KVLIST, depth, maximum))
            == Some(PartNodes(ParseParts(b).value, depth, maximum))
    decreases |b|, 0
  {
    hide ReadField, ParseValues, ParseEntries, CountValues, CountEntries, ValueNodes, EntryNodes;
    if b != [] {
      var f := ReadField(b).value;
      PartsCountExact(b[|f.raw|..], depth, maximum);
      if IsMessage(f, ARRAY) { ValuesCountExact(f.value, 1, depth + 1, maximum); }
      else if IsMessage(f, KVLIST) { EntriesCountExact(f.value, 1, depth + 1, maximum); }
    }
  }

  lemma {:induction false} ValuesCountExact(b: bytes, number: nat, depth: nat, maximum: nat)
    requires ParseValues(b, number).Some?
    ensures CountValues(b, number, depth, maximum) == Some(ValueNodes(ParseValues(b, number).value, depth, maximum))
    decreases |b|, 0
  {
    hide ReadField, ParseValue, CountValue, Nodes;
    if b != [] {
      var f := ReadField(b).value;
      ValuesCountExact(b[|f.raw|..], number, depth, maximum);
      if IsMessage(f, number) { ValueCountExact(f.value, depth, maximum); }
    }
  }

  lemma {:induction false} EntriesCountExact(b: bytes, number: nat, depth: nat, maximum: nat)
    requires ParseEntries(b, number).Some?
    ensures CountEntries(b, number, depth, maximum) == Some(EntryNodes(ParseEntries(b, number).value, depth, maximum))
    decreases |b|, 0
  {
    hide ReadField, ParseValues, CountValues, ValueNodes;
    if b != [] {
      var f := ReadField(b).value;
      EntriesCountExact(b[|f.raw|..], number, depth, maximum);
      if IsMessage(f, number) { ValuesCountExact(f.value, 2, depth, maximum); }
    }
  }

  /** A readable record is counted exactly: its values and attributes with all they nest down to the limit. */
  lemma RecordCountExact(b: bytes, maximum: nat)
    requires ReadableRecord(b)
    ensures CountRecord(b, maximum) ==
              Some(ValueNodes(ParseValues(b, 5).value, 1, maximum) + EntryNodes(ParseEntries(b, 6).value, 1, maximum))
  {
    hide ParseValues, ParseEntries, CountValues, CountEntries, ValueNodes, EntryNodes;
    ValuesCountExact(b, 5, 1, maximum);
    EntriesCountExact(b, 6, 1, maximum);
  }

  // ---------------------------------------------------------------- the budget

  datatype Stop = Malformed | TooManyNodes

  /** What a visit that wants `count` more nodes leaves behind. */
  ghost predicate Spent(error: Option<Stop>, before: nat, after: nat, count: Option<nat>, limit: nat) {
    count.Some? ==>
      (error.None? <==> before + count.value <= limit) && (error.None? ==>
                                                             after == before + count.value) && error != Some(Malformed)
  }

  /** A visit that succeeds has read everything. */
  ghost predicate Complete(error: Option<Stop>, count: Option<nat>) {
    error.None? ==> count.Some?
  }

  class NodeBudget {
    var used: nat
    const maximum: nat

    constructor (maximum: nat)
      ensures used == 0 && this.maximum == maximum
    {
      used, this.maximum := 0, maximum;
    }

    method Add() returns (error: Option<Stop>)
      requires used <= maximum
      modifies this
      ensures used == old(used) + 1 && error == if used > maximum then Some(TooManyNodes) else None
    {
      used := used + 1;
      error := if used > maximum then Some(TooManyNodes) else None;
    }

    /** countAnyValue. */
    method CountAnyValue(b: bytes, depth: nat, limit: nat) returns (error: Option<Stop>)
      requires used <= maximum
      modifies this
      ensures Spent(error, old(used), used, CountValue(b, depth, limit), maximum)
      ensures Complete(error, CountValue(b, depth, limit))
      ensures error.None? ==> used <= maximum
      decreases |b|, 2
    {
      hide CountParts;
      error := Add();
      if error.Some? || depth > limit { return; }
      error := CountEach(b, ARRAY, depth, limit);
      if error.Some? { return; }
      error := CountEach(b, KVLIST, depth, limit);
    }

    method CountEach(b: bytes, kind: nat, depth: nat, limit: nat) returns (error: Option<Stop>)
      requires used <= maximum && (kind == ARRAY || kind == KVLIST)
      modifies this
      ensures Spent(error, old(used), used, CountParts(b, kind, depth, limit), maximum)
      ensures Complete(error, CountParts(b, kind, depth, limit))
      ensures error.None? ==> used <= maximum
      decreases |b|, 1
    {
      hide ReadField, CountValues, CountEntries;
      var rest := b;
      error := None;
      while rest != []
        invariant error.None? && used <= maximum && |rest| <= |b| && used >= old(used)
        invariant CountParts(b, kind, depth, limit) ==
                    Plus(Some(used - old(used)), CountParts(rest, kind, depth, limit))
        decreases |rest|
      {
        var f := ReadField(rest);
        if f.None? { return Some(Malformed); }
        if f.value.number == kind && f.value.wire == BYTES {
          error := Add();
          if error.Some? { return; }
          if kind == ARRAY {
            error := CountAllValues(f.value.value, 1, depth + 1, limit);
          } else {
            error := CountAllEntries(f.value.value, 1, depth + 1, limit);
          }
          if error.Some? { return; }
        }
        rest := rest[|f.value.raw|..];
      }
    }

    method CountAllValues(b: bytes, number: nat, depth: nat, limit: nat) returns (error: Option<Stop>)
      requires used <= maximum
      modifies this
      ensures Spent(error, old(used), used, CountValues(b, number, depth, limit), maximum)
      ensures Complete(error, CountValues(b, number, depth, limit))
      ensures error.None? ==> used <= maximum
      decreases |b|, 1
    {
      hide ReadField, CountValue;
      var rest := b;
      error := None;
      while rest != []
        invariant error.None? && used <= maximum && |rest| <= |b| && used >= old(used)
        invariant CountValues(b, number, depth, limit) ==
                    Plus(Some(used - old(used)), CountValues(rest, number, depth, limit))
        decreases |rest|
      {
        var f := ReadField(rest);
        if f.None? { return Some(Malformed); }
        if f.value.number == number && f.value.wire == BYTES {
          error := CountAnyValue(f.value.value, depth, limit);
          if error.Some? { return; }
        }
        rest := rest[|f.value.raw|..];
      }
    }

    /** countAttributes. */
    method CountAllEntries(b: bytes, number: nat, depth: nat, limit: nat) returns (error: Option<Stop>)
      requires used <= maximum
      modifies this
      ensures Spent(error, old(used), used, CountEntries(b, number, depth, limit), maximum)
      ensures Complete(error, CountEntries(b, number, depth, limit))
      ensures error.None? ==> used <= maximum
      decreases |b|, 1
    {
      hide ReadField, CountValues;
      var rest := b;
      error := None;
      while rest != []
        invariant error.None? && used <= maximum && |rest| <= |b| && used >= old(used)
        invariant CountEntries(b, number, depth, limit) ==
                    Plus(Some(used - old(used)), CountEntries(rest, number, depth, limit))
        decreases |rest|
      {
        var f := ReadField(rest);
        if f.None? { return Some(Malformed); }
        if f.value.number == number && f.value.wire == BYTES {
          error := Add();
          if error.Some? { return; }
          error := CountAllValues(f.value.value, 2, depth, limit);
          if error.Some? { return; }
        }
        rest := rest[|f.value.raw|..];
      }
    }

    /** countLogRecord. */
    method CountLogRecord(b: bytes, limit: nat) returns (error: Option<Stop>)
      requires used <= maximum
      modifies this
      ensures Spent(error, old(used), used, CountRecord(b, limit), maximum) && Complete(error, CountRecord(b, limit))
      ensures error.None? ==> used <= maximum
    {
      hide CountValues, CountEntries;
      error := CountAllValues(b, 5, 1, limit);
      if error.Some? { return; }
      error := CountAllEntries(b, 6, 1, limit);
    }
  }
}
