/** The protobuf wire format: fields, messages among them, and fields written back. */
module Wire {
  import opened Basics
  import opened Encoding

  const VARINT := 0
  const FIXED64 := 1
  const BYTES := 2
  const START_GROUP := 3
  const END_GROUP := 4
  const FIXED32 := 5
  const MAX_INT32 := 0x7fff_ffff
  const RECURSION_LIMIT := 10_000

  /** One field as it lies on the wire; `value` is the payload of a length-delimited field. */
  datatype Field = Field(number: nat, wire: nat, raw: bytes, value: bytes)

  // ---------------------------------------------------------------- reading one field

  /** ConsumeTag: number, wire type and length. */
  function ReadTag(b: bytes): (r: Option<(nat, nat, nat)>)
    ensures r.Some? ==> 0 < r.value.2 <= |b|
  {
    var v := ReadUvarint(b, 0);
    if v.None? || v.value.0 / 8 > MAX_INT32 || v.value.0 / 8 < 1 then None
    else Some((v.value.0 / 8, v.value.0 % 8, v.value.1))
  }

  /** ConsumeBytes: the payload and the length of prefix and payload together. */
  function ReadBytes(b: bytes): (r: Option<(bytes, nat)>)
    ensures r.Some? ==> r.value.1 <= |b| && |r.value.0| < r.value.1
  {
    var v := ReadUvarint(b, 0);
    if v.None? || v.value.0 > |b| - v.value.1 then None
    else Some((b[v.value.1..v.value.1 + v.value.0], v.value.1 + v.value.0))
  }

  /** ConsumeFieldValue: how many bytes the value takes. */
  function ValueLength(number: nat, wire: nat, b: bytes, depth: int): (n: Option<nat>)
    ensures n.Some? ==> n.value <= |b|
    decreases |b|, 1
  {
    if wire == VARINT then (var v := ReadUvarint(b, 0); if v.None? then None else Some(v.value.1))
    else if wire == FIXED32 then (if |b| < 4 then None else Some(4))
    else if wire == FIXED64 then (if |b| < 8 then None else Some(8))
    else if wire == BYTES then (var v := ReadBytes(b); if v.None? then None else Some(v.value.1))
    else if wire == START_GROUP then (if depth < 0 then None else GroupLength(number, b, depth))
    else None
  }

  /** A group's fields up to and including its own end tag. */
  function GroupLength(number: nat, b: bytes, depth: int): (n: Option<nat>)
    ensures n.Some? ==> n.value <= |b|
    decreases |b|, 0
  {
    var t := ReadTag(b);
    if t.None? then None
    else if t.value.1 == END_GROUP then (if t.value.0 != number then None else Some(t.value.2))
    else
      var v := ValueLength(t.value.0, t.value.1, b[t.value.2..], depth - 1);
      if v.None? then None
      else
        var rest := GroupLength(number, b[t.value.2 + v.value..], depth);
        if rest.None? then None else Some(t.value.2 + v.value + rest.value)
  }

  function ReadField(b: bytes): (f: Option<Field>)
    ensures f.Some? ==> 0 < |f.value.raw| <= |b| && f.value.raw == b[..|f.value.raw|] && |f.value.value| < |f.value.raw|
  {
    var t := ReadTag(b);
    if t.None? then None
    else
      var rest := b[t.value.2..];
      var n := ValueLength(t.value.0, t.value.1, rest, RECURSION_LIMIT);
      if n.None? then None
      else
        var v := ReadBytes(rest);
        Some(Field(t.value.0, t.value.1, b[..t.value.2 + n.value], if t.value.1 == BYTES && v.Some? then v.value.0 else []))
  }

  /** A whole message, field by field. */
  function Fields(b: bytes): Option<seq<Field>>
    decreases |b|
  {
    if b == [] then Some([])
    else
      var f := ReadField(b);
      if f.None? then None
      else
        var rest := Fields(b[|f.value.raw|..]);
        if rest.None? then None else Some([f.value] + rest.value)
  }

  // ---------------------------------------------------------------- what follows does not matter

  lemma {:induction false} UvarintStable(b: bytes, i: nat, rest: bytes)
    requires ReadUvarint(b, i).Some?
    ensures ReadUvarint(b[..ReadUvarint(b, i).value.1] + rest, i) == ReadUvarint(b, i)
    decreases |b|
  {
    var n := ReadUvarint(b, i).value.1;
    var c := b[..n] + rest;
    assert c[0] == b[0];
    if b[0] >= 128 {
      UvarintStable(b[1..], i + 1, rest);
      assert c[1..] == b[1..][..n - 1] + rest;
    }
  }

  lemma UvarintLonger(b: bytes, n: nat, rest: bytes)
    requires ReadUvarint(b, 0).Some? && ReadUvarint(b, 0).value.1 <= n <= |b|
    ensures ReadUvarint(b[..n] + rest, 0) == ReadUvarint(b, 0)
  {
    var k := ReadUvarint(b, 0).value.1;
    UvarintStable(b, 0, b[k..n] + rest);
    assert b[..k] + (b[k..n] + rest) == b[..n] + rest;
  }

  lemma BytesLonger(b: bytes, rest: bytes)
    requires ReadBytes(b).Some?
    ensures ReadBytes(b[..ReadBytes(b).value.1] + rest) == ReadBytes(b)
  {
    var n := ReadBytes(b).value.1;
    UvarintLonger(b, n, rest);
    hide ReadUvarint;
    var k := ReadUvarint(b, 0).value.1;
    var c := b[..n] + rest;
    assert c[k..n] == b[k..n];
  }

  lemma TagLonger(b: bytes, n: nat, rest: bytes)
    requires ReadTag(b).Some? && ReadTag(b).value.2 <= n <= |b|
    ensures ReadTag(b[..n] + rest) == ReadTag(b)
  {
    UvarintLonger(b, n, rest);
    hide ReadUvarint;
  }

  lemma {:induction false} ValueStable(number: nat, wire: nat, b: bytes, depth: int, rest: bytes)
    requires ValueLength(number, wire, b, depth).Some?
    ensures ValueLength(number, wire, b[..ValueLength(number, wire, b, depth).value] + rest, depth) ==
              ValueLength(number, wire, b, depth)
    decreases |b|, 1
  {
    hide ReadUvarint, ReadBytes, GroupLength;
    if wire == VARINT { UvarintStable(b, 0, rest); }
    else if wire == BYTES { BytesLonger(b, rest); }
    else if wire == START_GROUP { GroupStable(number, b, depth, rest); }
  }

  lemma GroupMore(number: nat, b: bytes, depth: int, t: (nat, nat, nat), v: nat)
    requires ReadTag(b) == Some(t) && t.1 != END_GROUP && ValueLength(t.0, t.1, b[t.2..], depth - 1) == Some(v)
    ensures GroupLength(number, b, depth)
            == var rest := GroupLength(number, b[t.2 + v..], depth); if rest.None? then None else Some(t.2 + v + rest.value)
  {
    hide ReadTag, ValueLength;
  }

  lemma SliceInside(b: bytes, at: nat, v: nat, n: nat, rest: bytes)
    requires at + v <= n <= |b|
    ensures (b[..n] + rest)[at..] == b[at..][..v] + (b[at + v..n] + rest)
  {
  }

  lemma SliceAfter(b: bytes, at: nat, n: nat, rest: bytes)
    requires at <= n <= |b|
    ensures (b[..n] + rest)[at..] == b[at..][..n - at] + rest
  {
  }

  /** How a readable group begins: with its end, or with a field and the rest of the group. */
  lemma GroupParts(number: nat, b: bytes, depth: int) returns (t: (nat, nat, nat), v: nat)
    requires GroupLength(number, b, depth).Some?
    ensures ReadTag(b) == Some(t) && GroupLength(number, b, depth).value <= |b|
    ensures t.1 == END_GROUP ==> t.0 == number && GroupLength(number, b, depth) == Some(t.2)
    ensures t.1 != END_GROUP ==>
              ValueLength(t.0, t.1, b[t.2..], depth - 1) == Some(v) && GroupLength(number, b[t.2 + v..], depth).Some? &&
              GroupLength(number, b, depth).value == t.2 + v + GroupLength(number, b[t.2 + v..], depth).value
  {
    hide ReadTag, ValueLength;
    t := ReadTag(b).value;
    v := if t.1 == END_GROUP then 0 else ValueLength(t.0, t.1, b[t.2..], depth - 1).value;
  }

  lemma GroupEnd(number: nat, b: bytes, depth: int, t: (nat, nat, nat))
    requires ReadTag(b) == Some(t) && t.1 == END_GROUP && t.0 == number
    ensures GroupLength(number, b, depth) == Some(t.2)
  {
    hide ReadTag, ValueLength;
  }

  lemma {:induction false} GroupStable(number: nat, b: bytes, depth: int, rest: bytes)
    requires GroupLength(number, b, depth).Some?
    ensures GroupLength(number, b[..GroupLength(number, b, depth).value] + rest, depth) == GroupLength(number, b, depth)
    decreases |b|, 0
  {
    hide ReadTag, ValueLength, GroupLength;
    var n := GroupLength(number, b, depth).value;
    var t, v := GroupParts(number, b, depth);
    TagLonger(b, n, rest);
    if t.1 == END_GROUP {
      GroupEnd(number, b[..n] + rest, depth, t);
    } else {
      ValueStable(t.0, t.1, b[t.2..], depth - 1, b[t.2 + v..n] + rest);
      GroupStable(number, b[t.2 + v..], depth, rest);
      SliceInside(b, t.2, v, n, rest);
      SliceAfter(b, t.2 + v, n, rest);
      GroupMore(number, b[..n] + rest, depth, t, v);
    }
  }

  /** A field reads the same whatever comes after it. */
  lemma FieldStable(b: bytes, rest: bytes)
    requires ReadField(b).Some?
    ensures ReadField(ReadField(b).value.raw + rest) == ReadField(b)
  {
    hide ReadTag, ValueLength, ReadBytes;
    var t := ReadTag(b).value;
    var n := ValueLength(t.0, t.1, b[t.2..], RECURSION_LIMIT).value;
    var c := b[..t.2 + n] + rest;
    TagLonger(b, t.2 + n, rest);
    ValueStable(t.0, t.1, b[t.2..], RECURSION_LIMIT, rest);
    assert c[t.2..] == b[t.2..][..n] + rest;
    assert c[..t.2 + n] == b[..t.2 + n];
    if t.1 == BYTES { FieldBytes(t.0, b[t.2..], rest); }
  }

  lemma FieldBytes(number: nat, b: bytes, rest: bytes)
    requires ValueLength(number, BYTES, b, RECURSION_LIMIT).Some?
    ensures ReadBytes(b).Some? && ReadBytes(b).value.1 == ValueLength(number, BYTES, b, RECURSION_LIMIT).value
    ensures ReadBytes(b[..ReadBytes(b).value.1] + rest) == ReadBytes(b)
  {
    BytesLonger(b, rest);
  }

  // ---------------------------------------------------------------- fields as a sequence

  predicate Proper(f: Field) {
    ReadField(f.raw) == Some(f)
  }

  function Flat(fs: seq<Field>): bytes {
    if fs == [] then [] else fs[0].raw + Flat(fs[1..])
  }

  lemma {:induction false} FlatReadsBack(fs: seq<Field>)
    requires forall i :: 0 <= i < |fs| ==> Proper(fs[i])
    ensures Fields(Flat(fs)) == Some(fs)
  {
    hide ReadField;
    if fs != [] {
      FlatReadsBack(fs[1..]);
      ProperAhead(fs[0], Flat(fs[1..]));
      assert (fs[0].raw + Flat(fs[1..]))[|fs[0].raw|..] == Flat(fs[1..]);
      assert fs == [fs[0]] + fs[1..];
    }
  }

  lemma ProperAhead(f: Field, rest: bytes)
    requires Proper(f)
    ensures f.raw != [] && ReadField(f.raw + rest) == Some(f)
  {
    FieldStable(f.raw, rest);
  }

  lemma FieldIsProper(b: bytes)
    requires ReadField(b).Some?
    ensures var f := ReadField(b).value; Proper(f) && b != [] && b == f.raw + b[|f.raw|..]
  {
    FieldStable(b, []);
    hide ReadTag, ValueLength, ReadBytes;
    assert ReadField(b).value.raw + [] == ReadField(b).value.raw;
  }

  lemma {:induction false} FieldsAreProper(b: bytes)
    requires Fields(b).Some?
    ensures (forall i :: 0 <= i < |Fields(b).value| ==> Proper(Fields(b).value[i])) && Flat(Fields(b).value) == b
    decreases |b|
  {
    hide ReadField, Proper;
    if b != [] {
      var f := ReadField(b).value;
      FieldIsProper(b);
      FieldsAreProper(b[|f.raw|..]);
      var rest := Fields(b[|f.raw|..]).value;
      assert Fields(b).value == [f] + rest && ([f] + rest)[1..] == rest;
    }
  }

  /** AppendTag and AppendBytes. */
  function Emitted(number: nat, value: bytes): Field {
    Field(number, BYTES, Uvarint(8 * number + BYTES) + (Uvarint(|value|) + value), value)
  }

  lemma TagReadsBack(number: nat, rest: bytes)
    requires 1 <= number <= MAX_INT32
    ensures ReadTag(Uvarint(8 * number + BYTES) + rest) == Some((number, BYTES, |Uvarint(8 * number + BYTES)|))
  {
    RoomIs64Bits();
    UvarintReadsBack(8 * number + BYTES, 0, rest);
    hide Uvarint, ReadUvarint, Room;
  }

  lemma BytesReadBack(value: bytes)
    requires |value| < U64
    ensures ReadBytes(Uvarint(|value|) + value) == Some((value, |Uvarint(|value|)| + |value|))
  {
    RoomIs64Bits();
    UvarintReadsBack(|value|, 0, value);
    hide Uvarint, ReadUvarint, Room;
    var n := |Uvarint(|value|)|;
    assert (Uvarint(|value|) + value)[n..n + |value|] == value;
  }

  lemma EmittedIsProper(number: nat, value: bytes)
    requires 1 <= number <= MAX_INT32 && |value| < U64
    ensures Proper(Emitted(number, value))
  {
    hide Uvarint, ReadTag, ReadBytes;
    var tag, body := Uvarint(8 * number + BYTES), Uvarint(|value|) + value;
    TagReadsBack(number, body);
    BytesReadBack(value);
    assert (tag + body)[|tag|..] == body;
    assert (tag + body)[..|tag| + |body|] == tag + body;
  }

  /** The messages in the length-delimited fields of one number, in order. */
  function Messages(fs: seq<Field>, number: nat): seq<bytes> {
    if fs == [] then []
    else Messages(fs[..|fs| - 1], number) + if IsMessage(fs[|fs| - 1], number) then [fs[|fs| - 1].value] else []
  }

  predicate IsMessage(f: Field, number: nat) {
    f.number == number && f.wire == BYTES
  }

  lemma MessagesSnoc(fs: seq<Field>, f: Field, number: nat)
    ensures Messages(fs + [f], number) == Messages(fs, number) + if IsMessage(f, number) then [f.value] else []
  {
    assert (fs + [f])[..|fs|] == fs;
  }

  /** The fields that are not messages of the given numbers, in order and byte for byte. */
  function Others(fs: seq<Field>, numbers: set<nat>): seq<Field> {
    if fs == [] then []
    else Others(fs[..|fs| - 1], numbers) + if IsOther(fs[|fs| - 1], numbers) then [fs[|fs| - 1]] else []
  }

  predicate IsOther(f: Field, numbers: set<nat>) {
    f.wire != BYTES || f.number !in numbers
  }

  lemma OthersSnoc(fs: seq<Field>, f: Field, numbers: set<nat>)
    ensures Others(fs + [f], numbers) == Others(fs, numbers) + if IsOther(f, numbers) then [f] else []
  {
    assert (fs + [f])[..|fs|] == fs;
  }

  lemma OthersStep(ofs: seq<Field>, done: seq<Field>, f: Field, g: Field, numbers: set<nat>)
    requires Others(ofs, numbers) == Others(done, numbers) && (f == g || (!IsOther(f, numbers) && !IsOther(g, numbers)))
    ensures Others(ofs + [g], numbers) == Others(done + [f], numbers)
    ensures !IsOther(f, numbers) ==> Others(ofs, numbers) == Others(done + [f], numbers)
  {
    hide Others, IsOther;
    OthersSnoc(ofs, g, numbers);
    OthersSnoc(done, f, numbers);
    assert Others(done, numbers) + [] == Others(done, numbers);
  }

  lemma {:induction false} MessagesAppend(a: seq<Field>, b: seq<Field>, number: nat)
    ensures Messages(a + b, number) == Messages(a, number) + Messages(b, number)
  {
    if b == [] {
      assert a + b == a;
    } else {
      var n := |b| - 1;
      MessagesAppend(a, b[..n], number);
      assert (a + b)[..|a + b| - 1] == a + b[..n];
    }
  }

  lemma {:induction false} FlatSnoc(fs: seq<Field>, f: Field)
    ensures Flat(fs + [f]) == Flat(fs) + f.raw
  {
    if fs == [] {
      assert fs + [f] == [f] && [f][1..] == [];
    } else {
      FlatSnoc(fs[1..], f);
      assert (fs + [f])[1..] == fs[1..] + [f];
    }
  }
}
