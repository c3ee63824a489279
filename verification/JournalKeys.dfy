/** The journal's byte keys: what they parse back to, how they are ordered, what a prefix scan returns. */
module JournalKeys {
  import opened Basics
  import opened Encoding

  // ---------------------------------------------------------------- components

  /** appendComponent and one step of key: a length prefix and the bytes. */
  function Component(v: bytes): bytes {
    Uvarint(|v|) + v
  }

  function ReadComponent(b: bytes): (r: Option<(bytes, bytes)>)
    ensures r.Some? ==> |r.value.1| < |b|
  {
    var size := ReadUvarint(b, 0);
    if size.None? || size.value.0 > |b| - size.value.1 then None
    else Some((b[size.value.1..size.value.1 + size.value.0], b[size.value.1 + size.value.0..]))
  }

  lemma ComponentReadsBack(v: bytes, rest: bytes)
    requires |v| < U64
    ensures ReadComponent(Component(v) + rest) == Some((v, rest))
  {
    RoomIs64Bits();
    var u := Uvarint(|v|);
    UvarintReadsBack(|v|, 0, v + rest);
    hide Uvarint, ReadUvarint;
    assert Component(v) + rest == u + (v + rest);
    assert (u + (v + rest))[|u|..|u| + |v|] == v && (u + (v + rest))[|u| + |v|..] == rest;
  }

  // ---------------------------------------------------------------- times

  const MIN_TIME := -0x8000_0000_0000_0000
  const MAX_TIME := 0x7fff_ffff_ffff_ffff

  predicate ValidTime(t: int) {
    MIN_TIME <= t <= MAX_TIME
  }

  /** appendOrderedTime: the sign bit of the two's-complement nanoseconds is flipped. */
  function OrderedTime(t: int): bytes
    requires ValidTime(t)
  {
    BigEndian(t - MIN_TIME, 8)
  }

  function ReadTime(b: bytes): int {
    FromBigEndian(b) + MIN_TIME
  }

  lemma TimeReadsBack(t: int)
    requires ValidTime(t)
    ensures |OrderedTime(t)| == 8 && ReadTime(OrderedTime(t)) == t
  {
    Pow8();
    BigEndianReadsBack(t - MIN_TIME, 8);
  }

  // ---------------------------------------------------------------- keys

  /** Everything the journal stores except its manifest, by namespace. */
  datatype Key =
    | BatchKey(batch: bytes)
    | RecordKey(id: bytes)
    | PendingKey(priority: nat, at: int, id: bytes)
    | ClaimKey(at: int, id: bytes)
    | CommittedKey(at: int, id: bytes)
    | QuarantineKey(id: bytes)
    | RefKey(id: bytes, batch: bytes)
    | ReserveKey(id: bytes)
    | OriginalKey(id: bytes, batch: bytes)

  const KEY_VERSION: byte := 1

  function Namespace(k: Key): byte {
    match k
    case BatchKey(_) => 2
    case RecordKey(_) => 3
    case PendingKey(_, _, _) => 4
    case ClaimKey(_, _) => 5
    case CommittedKey(_, _) => 6
    case QuarantineKey(_) => 7
    case RefKey(_, _) => 8
    case ReserveKey(_) => 9
    case OriginalKey(_, _) => 10
  }

  /** What the journal admits into a key: text shorter than 2^64 bytes, one-byte priorities, int64 times. */
  predicate Encodable(k: Key) {
    match k
    case BatchKey(b) => |b| < U64
    case RecordKey(id) => |id| < U64
    case PendingKey(p, t, id) => p < 256 && ValidTime(t) && |id| < U64
    case ClaimKey(t, id) => ValidTime(t) && |id| < U64
    case CommittedKey(t, id) => ValidTime(t) && |id| < U64
    case QuarantineKey(id) => |id| < U64
    case RefKey(id, b) => |id| < U64 && |b| < U64
    case ReserveKey(id) => |id| < U64
    case OriginalKey(id, b) => |id| < U64 && |b| < U64
  }

  /** The bytes after the version and the namespace. */
  function Tail(k: Key): bytes
    requires Encodable(k)
  {
    match k
    case BatchKey(b) => Component(b)
    case RecordKey(id) => Component(id)
    case PendingKey(p, t, id) => [p] + OrderedTime(t) + Component(id)
    case ClaimKey(t, id) => OrderedTime(t) + Component(id)
    case CommittedKey(t, id) => OrderedTime(t) + Component(id)
    case QuarantineKey(id) => Component(id)
    case RefKey(id, b) => Component(id) + Component(b)
    case ReserveKey(id) => Component(id)
    case OriginalKey(id, b) => Component(id) + Component(b)
  }

  function Encode(k: Key): bytes
    requires Encodable(k)
  {
    [KEY_VERSION, Namespace(k)] + Tail(k)
  }

  function ParseOne(b: bytes): Option<bytes> {
    var c := ReadComponent(b);
    if c.None? || c.value.1 != [] then None else Some(c.value.0)
  }

  /** parsePendingKey. */
  function ParsePendingKey(b: bytes): Option<Key> {
    if |b| < 11 || b[0] != KEY_VERSION || b[1] != 4 then None
    else
      var id := ParseOne(b[11..]);
      if id.None? then None else Some(PendingKey(b[2], ReadTime(b[3..11]), id.value))
  }

  /** parseTimedKey. */
  function ParseTimedKey(b: bytes, namespace: byte): Option<(int, bytes)> {
    if |b| < 10 || b[0] != KEY_VERSION || b[1] != namespace then None
    else
      var id := ParseOne(b[10..]);
      if id.None? then None else Some((ReadTime(b[2..10]), id.value))
  }

  /** parseTwoComponentKey. */
  function ParseTwoComponentKey(b: bytes, namespace: byte): Option<(bytes, bytes)> {
    if |b| < 2 || b[0] != KEY_VERSION || b[1] != namespace then None
    else
      var c := ReadComponent(b[2..]);
      if c.None? then None
      else
        var second := ParseOne(c.value.1);
        if second.None? then None else Some((c.value.0, second.value))
  }

  /** readComponent over a whole one-component key. */
  function ParseOneKey(b: bytes, namespace: byte): Option<bytes> {
    if |b| < 2 || b[0] != KEY_VERSION || b[1] != namespace then None else ParseOne(b[2..])
  }

  /** The parser the journal applies in each namespace. */
  function Parse(b: bytes): Option<Key> {
    if |b| < 2 then None
    else if b[1] == 2 then (var c := ParseOneKey(b, 2); if c.None? then None else Some(BatchKey(c.value)))
    else if b[1] == 3 then (var c := ParseOneKey(b, 3); if c.None? then None else Some(RecordKey(c.value)))
    else if b[1] == 4 then ParsePendingKey(b)
    else if b[1] == 5 then (var c := ParseTimedKey(b, 5); if c.None? then None else Some(ClaimKey(c.value.0, c.value.1)))
    else if b[1] == 6 then (var c := ParseTimedKey(b, 6); if c.None? then None else Some(CommittedKey(c.value.0, c.value.1)))
    else if b[1] == 7 then (var c := ParseOneKey(b, 7); if c.None? then None else Some(QuarantineKey(c.value)))
    else if b[1] == 8 then (var c := ParseTwoComponentKey(b, 8); if c.None? then None else Some(RefKey(c.value.0, c.value.1)))
    else if b[1] == 9 then (var c := ParseOneKey(b, 9); if c.None? then None else Some(ReserveKey(c.value)))
    else if b[1] == 10 then (var c := ParseTwoComponentKey(b, 10); if c.None? then None else Some(OriginalKey(c.value.0, c.value.1)))
    else None
  }

  lemma OneReadsBack(v: bytes)
    requires |v| < U64
    ensures ParseOne(Component(v)) == Some(v)
  {
    ComponentReadsBack(v, []);
    assert Component(v) + [] == Component(v);
  }

  /** A timed key before its component: version, namespace, and an optional priority byte. */
  lemma TimedReadsBack(head: bytes, t: int, id: bytes)
    requires ValidTime(t) && |id| < U64
    ensures var b := head + OrderedTime(t) + Component(id);
            |b| >= |head| + 8 && b[..|head|] == head && ReadTime(b[|head|..|head| + 8]) == t &&
            ParseOne(b[|head| + 8..]) == Some(id)
  {
    TimeReadsBack(t);
    OneReadsBack(id);
    hide OrderedTime, Component, ReadTime, ParseOne;
    var b := head + OrderedTime(t) + Component(id);
    assert b[|head|..|head| + 8] == OrderedTime(t) && b[|head| + 8..] == Component(id);
  }

  function TimedHead(k: Key): bytes
    requires Encodable(k) && (k.PendingKey? || k.ClaimKey? || k.CommittedKey?)
  {
    if k.PendingKey? then [KEY_VERSION, 4, k.priority] else [KEY_VERSION, Namespace(k)]
  }

  lemma TimedEncoding(k: Key)
    requires Encodable(k) && (k.PendingKey? || k.ClaimKey? || k.CommittedKey?)
    ensures var b := TimedHead(k) + OrderedTime(k.at) + Component(k.id);
            Encode(k) == b && b[0] == KEY_VERSION && b[1] == Namespace(k) && (k.PendingKey? ==> b[2] == k.priority)
  {
    hide Component, OrderedTime;
  }

  lemma IndexKeyReadsBack(k: Key)
    requires Encodable(k) && (k.PendingKey? || k.ClaimKey? || k.CommittedKey?)
    ensures Parse(Encode(k)) == Some(k)
  {
    hide Component, OrderedTime, ReadTime, ParseOne, ReadComponent, Encode;
    TimedReadsBack(TimedHead(k), k.at, k.id);
    TimedEncoding(k);
  }

  lemma TwoComponentsReadBack(id: bytes, v: bytes, namespace: byte)
    requires |id| < U64 && |v| < U64
    ensures ParseTwoComponentKey([KEY_VERSION, namespace] + (Component(id) + Component(v)), namespace) == Some((id, v))
  {
    ComponentReadsBack(id, Component(v));
    OneReadsBack(v);
    hide Component, ReadComponent, ParseOne;
    assert ([KEY_VERSION, namespace] + (Component(id) + Component(v)))[2..] == Component(id) + Component(v);
  }

  lemma OneComponentReadsBack(v: bytes, namespace: byte)
    requires |v| < U64
    ensures ParseOneKey([KEY_VERSION, namespace] + Component(v), namespace) == Some(v)
  {
    OneReadsBack(v);
    hide Component, ParseOne;
    assert ([KEY_VERSION, namespace] + Component(v))[2..] == Component(v);
  }

  /** Every key parses back to exactly what built it. */
  lemma KeyReadsBack(k: Key)
    requires Encodable(k)
    ensures Parse(Encode(k)) == Some(k)
  {
    hide Component, ParseOneKey, ParseTwoComponentKey, ParsePendingKey, ParseTimedKey, OrderedTime;
    match k
    case BatchKey(v) => OneComponentReadsBack(v, 2);
    case RecordKey(v) => OneComponentReadsBack(v, 3);
    case QuarantineKey(v) => OneComponentReadsBack(v, 7);
    case ReserveKey(v) => OneComponentReadsBack(v, 9);
    case PendingKey(_, _, _) => IndexKeyReadsBack(k);
    case ClaimKey(_, _) => IndexKeyReadsBack(k);
    case CommittedKey(_, _) => IndexKeyReadsBack(k);
    case RefKey(id, v) => TwoComponentsReadBack(id, v, 8);
    case OriginalKey(id, v) => TwoComponentsReadBack(id, v, 10);
  }

  /** So two different keys never share their bytes, whatever their namespaces. */
  lemma EncodeInjective(a: Key, b: Key)
    requires Encodable(a) && Encodable(b) && Encode(a) == Encode(b)
    ensures a == b
  {
    KeyReadsBack(a);
    KeyReadsBack(b);
  }

  // ---------------------------------------------------------------- byte order is domain order

  /** The order the comments promise: priority first, then received time, then record id. */
  predicate PendingBefore(a: Key, b: Key)
    requires a.PendingKey? && b.PendingKey?
  {
    if a.priority != b.priority then a.priority < b.priority
    else if a.at != b.at then a.at < b.at
    else Less(a.id, b.id)
  }

  predicate TimedBefore(s: int, a: bytes, t: int, b: bytes) {
    s < t || (s == t && Less(a, b))
  }

  lemma ComponentOrder(a: bytes, b: bytes)
    requires |a| == |b|
    ensures Less(Component(a), Component(b)) == Less(a, b)
  {
    LessCommonPrefix(Uvarint(|a|), a, b);
  }

  lemma TimedOrder(s: int, a: bytes, t: int, b: bytes)
    requires ValidTime(s) && ValidTime(t) && |a| == |b|
    ensures Less(OrderedTime(s) + Component(a), OrderedTime(t) + Component(b)) <==> TimedBefore(s, a, t, b)
  {
    Pow8();
    BigEndianOrder(s - MIN_TIME, t - MIN_TIME, 8, Component(a), Component(b));
    ComponentOrder(a, b);
  }

  lemma PendingBytes(k: Key)
    requires k.PendingKey? && Encodable(k)
    ensures Encode(k) == [KEY_VERSION, 4] + ([k.priority] + (OrderedTime(k.at) + Component(k.id)))
  {
    hide OrderedTime, Component;
    assert Tail(k) == [k.priority] + (OrderedTime(k.at) + Component(k.id));
  }

  /** Record ids all have one length, so byte order of index keys is the promised order of their contents. */
  lemma PendingKeyOrder(a: Key, b: Key)
    requires a.PendingKey? && b.PendingKey? && Encodable(a) && Encodable(b) && |a.id| == |b.id|
    ensures Less(Encode(a), Encode(b)) <==> PendingBefore(a, b)
  {
    hide Less, OrderedTime, Component, Encode;
    var x, y := OrderedTime(a.at) + Component(a.id), OrderedTime(b.at) + Component(b.id);
    PendingBytes(a);
    PendingBytes(b);
    TimedOrder(a.at, a.id, b.at, b.id);
    HeadDecides(a.priority, x, b.priority, y);
    LessCommonPrefix([KEY_VERSION, 4], [a.priority] + x, [b.priority] + y);
  }

  lemma ClaimKeyOrder(s: int, a: bytes, t: int, b: bytes)
    requires ValidTime(s) && ValidTime(t) && |a| == |b| < U64
    ensures Less(Encode(ClaimKey(s, a)), Encode(ClaimKey(t, b))) <==> TimedBefore(s, a, t, b)
  {
    TimedOrder(s, a, t, b);
    LessCommonPrefix([KEY_VERSION, 5], OrderedTime(s) + Component(a), OrderedTime(t) + Component(b));
  }

  lemma CommittedKeyOrder(s: int, a: bytes, t: int, b: bytes)
    requires ValidTime(s) && ValidTime(t) && |a| == |b| < U64
    ensures Less(Encode(CommittedKey(s, a)), Encode(CommittedKey(t, b))) <==> TimedBefore(s, a, t, b)
  {
    TimedOrder(s, a, t, b);
    LessCommonPrefix([KEY_VERSION, 6], OrderedTime(s) + Component(a), OrderedTime(t) + Component(b));
  }

  // ---------------------------------------------------------------- prefix scans

  /** prefixEnd: the least byte string after every string with this prefix; None when there is none. */
  function PrefixEnd(p: bytes): (e: Option<bytes>)
    ensures e.Some? ==> e.value != []
  {
    if p == [] then None
    else if p[|p| - 1] != 255 then Some(p[..|p| - 1] + [p[|p| - 1] + 1])
    else PrefixEnd(p[..|p| - 1])
  }

  /** What an iterator bounded by p and prefixEnd(p) visits. */
  predicate Scanned(p: bytes, k: bytes) {
    !Less(k, p) && (PrefixEnd(p).None? || Less(k, PrefixEnd(p).value))
  }

  lemma PrefixEndHead(p: bytes)
    requires p != []
    ensures PrefixEnd(p) == var e := PrefixEnd(p[1..]);
                            if e.Some? then Some([p[0]] + e.value)
                            else if p[0] != 255 then Some([p[0] + 1]) else None
  {
    var n := |p| - 1;
    if n == 0 {
      assert p[..0] == [] && p[1..] == [];
      if p[0] != 255 { assert p[..0] + [p[0] + 1] == [p[0] + 1]; }
    } else if p[n] == 255 {
      PrefixEndHead(p[..n]);
      assert p[..n][1..] == p[1..][..n - 1];
    } else {
      assert p[..n] + [p[n] + 1] == [p[0]] + (p[1..][..n - 1] + [p[1..][n - 1] + 1]);
    }
  }

  /** The scan returns exactly the strings that begin with the prefix. */
  lemma {:induction false} ScanIsPrefix(p: bytes, k: bytes)
    ensures Scanned(p, k) <==> p <= k
  {
    if p != [] {
      PrefixEndHead(p);
      ScanIsPrefix(p[1..], if k == [] then [] else k[1..]);
      var e := PrefixEnd(p[1..]);
      hide PrefixEnd;
      if k != [] {
        assert k == [k[0]] + k[1..] && p == [p[0]] + p[1..];
        HeadDecides(k[0], k[1..], p[0], p[1..]);
        if e.Some? { HeadDecides(k[0], k[1..], p[0], e.value); } else if p[0] != 255 {
          HeadDecides(k[0], k[1..], p[0] + 1, []);
          assert [p[0] + 1] + [] == [p[0] + 1];
        }
        assert p <= k <==> p[0] == k[0] && p[1..] <= k[1..];
      }
    }
  }

  /** batchRefPrefix and batchOriginalRefPrefix. */
  function RefPrefix(namespace: byte, id: bytes): bytes {
    [KEY_VERSION, namespace] + Component(id)
  }

  lemma ComponentPrefix(a: bytes, b: bytes, x: bytes)
    requires |a| < U64 && |b| < U64 && Component(a) <= Component(b) + x
    ensures a == b
  {
    var rest := (Component(b) + x)[|Component(a)|..];
    assert Component(b) + x == Component(a) + rest;
    ComponentReadsBack(a, rest);
    ComponentReadsBack(b, x);
  }

  /** A reference scan for one record returns that record's reference entries and nothing else. */
  lemma RefScanIsExact(k: Key, id: bytes)
    requires Encodable(k) && |id| < U64
    ensures Scanned(RefPrefix(8, id), Encode(k)) <==> k.RefKey? && k.id == id
    ensures Scanned(RefPrefix(10, id), Encode(k)) <==> k.OriginalKey? && k.id == id
  {
    ScanIsPrefix(RefPrefix(8, id), Encode(k));
    ScanIsPrefix(RefPrefix(10, id), Encode(k));
    hide Scanned, Component, OrderedTime;
    PrefixSplits(8, id, k);
    PrefixSplits(10, id, k);
    if k.RefKey? || k.OriginalKey? {
      if Component(id) <= Tail(k) { ComponentPrefix(id, k.id, Component(k.batch)); }
      assert Component(k.id) <= Tail(k);
    }
  }

  lemma PrefixSplits(namespace: byte, id: bytes, k: Key)
    requires Encodable(k)
    ensures RefPrefix(namespace, id) <= Encode(k) <==> Namespace(k) == namespace && Component(id) <= Tail(k)
  {
    hide Component, Tail, Namespace;
    var p, e := RefPrefix(namespace, id), Encode(k);
    if p <= e {
      assert p[1] == e[1];
      assert p[2..] <= e[2..] && p[2..] == Component(id) && e[2..] == Tail(k);
    }
    if Namespace(k) == namespace && Component(id) <= Tail(k) {
      assert e == p + Tail(k)[|Component(id)|..];
    }
  }

  /** A namespace scan returns exactly that namespace. */
  lemma NamespaceScanIsExact(k: Key, namespace: byte)
    requires Encodable(k) && namespace < 255
    ensures !Less(Encode(k), [KEY_VERSION, namespace]) && Less(Encode(k), [KEY_VERSION, namespace + 1])
            <==> Namespace(k) == namespace
  {
    hide Tail;
    ScanIsPrefix([KEY_VERSION, namespace], Encode(k));
    assert [KEY_VERSION, namespace][..1] + [namespace + 1] == [KEY_VERSION, namespace + 1];
    assert PrefixEnd([KEY_VERSION, namespace]) == Some([KEY_VERSION, namespace + 1]);
    if Namespace(k) == namespace { assert Encode(k) == [KEY_VERSION, namespace] + Tail(k); }
  }
}
