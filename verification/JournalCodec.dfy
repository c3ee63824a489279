/** The journal's value encodings, their decoders and the sizes the byte account charges. */
module JournalCodec {
  import opened Basics
  import opened Encoding
  import opened JournalKeys
  import opened JournalModel

  /** SHA-256 as a parameter: only its width matters for reading back what was written. */
  ghost predicate IsHash(h: bytes -> bytes) {
    forall x :: |h(x)| == 32
  }

  // ---------------------------------------------------------------- checksummed envelopes

  /** checked. */
  function Checked(h: bytes -> bytes, magic: bytes, payload: bytes): bytes {
    magic + payload + h(magic + payload)
  }

  /** unchecked. */
  function Unchecked(h: bytes -> bytes, data: bytes, magic: bytes): Option<bytes> {
    if |data| < |magic| + 32 || data[..|magic|] != magic then None
    else if h(data[..|data| - 32]) != data[|data| - 32..] then None
    else Some(data[|magic|..|data| - 32])
  }

  lemma CheckedReadsBack(h: bytes -> bytes, magic: bytes, payload: bytes)
    requires IsHash(h)
    ensures |Checked(h, magic, payload)| == |magic| + |payload| + 32
    ensures Unchecked(h, Checked(h, magic, payload), magic) == Some(payload)
  {
    var data := Checked(h, magic, payload);
    assert data[..|data| - 32] == magic + payload;
    assert data[|data| - 32..] == h(magic + payload);
    assert data[..|magic|] == magic && data[|magic|..|data| - 32] == payload;
  }

  /** A value under one magic never opens under another of the same length. */
  lemma MagicSeparates(h: bytes -> bytes, magic: bytes, other: bytes, payload: bytes)
    requires |magic| == |other| && magic != other
    ensures Unchecked(h, Checked(h, magic, payload), other) == None
  {
    assert Checked(h, magic, payload)[..|magic|] == magic;
  }

  // ---------------------------------------------------------------- times

  /** uint64(t.UnixNano()): two's complement. */
  function Word(t: int): nat
    requires ValidTime(t)
  {
    if t < 0 then t + U64 else t
  }

  function Unword(u: nat): int {
    if u > MAX_TIME then u - U64 else u
  }

  function TimeBytes(t: int): bytes
    requires ValidTime(t)
  {
    BigEndian(Word(t), 8)
  }

  function ReadTimeBytes(b: bytes): int {
    Unword(FromBigEndian(b))
  }

  lemma TimeBytesReadBack(t: int)
    requires ValidTime(t)
    ensures |TimeBytes(t)| == 8 && ReadTimeBytes(TimeBytes(t)) == t
  {
    Pow8();
    BigEndianReadsBack(Word(t), 8);
  }

  predicate ValidOptional(o: Option<int>) {
    o.Some? ==> ValidTime(o.value)
  }

  /** appendOptionalTime. */
  function OptionalBytes(o: Option<int>): (b: bytes)
    requires ValidOptional(o)
    ensures |b| == 9
  {
    if o.None? then [0] + BigEndian(0, 8) else [1] + TimeBytes(o.value)
  }

  /** readOptionalTime: the outer None is a malformed field. */
  function ReadOptional(b: bytes): Option<Option<int>>
    requires |b| == 9
  {
    if b[0] == 0 then (if FromBigEndian(b[1..]) == 0 then Some(None) else None)
    else if b[0] == 1 then Some(Some(ReadTimeBytes(b[1..])))
    else None
  }

  lemma OptionalReadsBack(o: Option<int>)
    requires ValidOptional(o)
    ensures ReadOptional(OptionalBytes(o)) == Some(o)
  {
    Pow8();
    if o.None? {
      BigEndianReadsBack(0, 8);
      assert OptionalBytes(o)[1..] == BigEndian(0, 8);
    } else {
      TimeBytesReadBack(o.value);
      assert OptionalBytes(o)[1..] == TimeBytes(o.value);
    }
  }

  // ---------------------------------------------------------------- stored records

  /** storedRecord as the codec sees it. */
  datatype RawStored = RawStored(state: byte, priority: byte, received: int, claimExpiry: Option<int>,
                                 committedAt: Option<int>,
                                 attempt: nat, owner: bytes, token: bytes, semantic: bytes, envelope: bytes)

  const CLAIM_PREFIX: bytes := [99, 108, 97, 105, 109, 58]
  const U32 := 0x1_0000_0000

  /** validClaimToken. */
  predicate ValidToken(s: bytes) {
    |s| == TOKEN_BYTES && s[..6] == CLAIM_PREFIX && forall i :: 6 <= i < |s| ==> Hex(s[i])
  }

  /** The checks at the end of decodeStored. */
  predicate StoredAcceptable(r: RawStored) {
    && 1 <= r.state <= 3 && r.priority <= 3 && r.envelope != []
    && (r.state == 1 ==> r.owner == [] && r.token == [] && r.claimExpiry.None? && r.committedAt.None?)
    &&
       (r.state == 2 ==> ValidIdentifier(r.owner, MAX_OWNER) && ValidToken(r.token) && r.claimExpiry.Some? && r.committedAt.None? && r.attempt != 0)
    && (r.state == 3 ==>
          r.owner == [] && ValidToken(r.token) && r.claimExpiry.None? && r.committedAt.Some? && r.attempt != 0)
  }

  /** What the field widths can carry. */
  predicate StoredFits(r: RawStored) {
    && ValidTime(r.received) && ValidOptional(r.claimExpiry) && ValidOptional(r.committedAt)
    && r.attempt < U32 && |r.owner| < U64 && |r.token| < U64 && |r.semantic| == 32 && |r.envelope| < U64
  }

  function StoredHead(r: RawStored): (b: bytes)
    requires StoredFits(r)
    ensures |b| == 32
  {
    [r.state, r.priority] + TimeBytes(r.received) + OptionalBytes(r.claimExpiry) + OptionalBytes(r.committedAt) + BigEndian(r.attempt, 4)
  }

  const STORED_MAGIC: bytes := [74, 82, 86, 49]

  /** encodeStored. */
  function EncodeStored(h: bytes -> bytes, r: RawStored): bytes
    requires StoredFits(r)
  {
    Checked(h, STORED_MAGIC,
            StoredHead(r) + (Component(r.owner) + (Component(r.token) + (r.semantic + Component(r.envelope)))))
  }

  function DecodeStoredTail(head: bytes, tail: bytes): Option<RawStored>
    requires |head| == 32
  {
    var claimExpiry := ReadOptional(head[10..19]);
    var committedAt := ReadOptional(head[19..28]);
    if claimExpiry.None? || committedAt.None? then None
    else
      var owner := ReadComponent(tail);
      if owner.None? then None
      else
        var token := ReadComponent(owner.value.1);
        if token.None? || |token.value.1| < 32 then None
        else
          var semantic := token.value.1[..32];
          var envelope := ReadComponent(token.value.1[32..]);
          if envelope.None? || envelope.value.1 != [] then None
          else
            Some(RawStored(head[0], head[1], ReadTimeBytes(head[2..10]), claimExpiry.value, committedAt.value,
                           FromBigEndian(head[28..32]), owner.value.0, token.value.0, semantic, envelope.value.0))
  }

  /** decodeStored. */
  function DecodeStored(h: bytes -> bytes, data: bytes): (r: Option<RawStored>)
    ensures r.Some? ==> StoredAcceptable(r.value)
  {
    var payload := Unchecked(h, data, STORED_MAGIC);
    if payload.None? || |payload.value| < 64 then None
    else
      var r := DecodeStoredTail(payload.value[..32], payload.value[32..]);
      if r.None? || !StoredAcceptable(r.value) then None else r
  }

  lemma Pow4()
    ensures Pow(256, 4) == U32
  {
  }

  lemma StoredHeadFields(r: RawStored)
    requires StoredFits(r)
    ensures var b := StoredHead(r);
            && b[0] == r.state && b[1] == r.priority && b[2..10] == TimeBytes(r.received)
            && b[10..19] == OptionalBytes(r.claimExpiry) && b[19..28] == OptionalBytes(r.committedAt)
            && b[28..32] == BigEndian(r.attempt, 4)
  {
    hide BigEndian, OptionalBytes;
  }

  lemma StoredTailReadsBack(r: RawStored)
    requires StoredFits(r)
    ensures DecodeStoredTail(StoredHead(r), Component(r.owner) + (Component(r.token) + (r.semantic + Component(r.envelope)))) == Some(r)
  {
    hide BigEndian, FromBigEndian, OptionalBytes, ReadOptional, TimeBytes, ReadTimeBytes, Component, ReadComponent,
         StoredHead;
    StoredHeadFields(r);
    TimeBytesReadBack(r.received);
    OptionalReadsBack(r.claimExpiry);
    OptionalReadsBack(r.committedAt);
    Pow4();
    BigEndianReadsBack(r.attempt, 4);
    var last := r.semantic + Component(r.envelope);
    ComponentReadsBack(r.owner, Component(r.token) + last);
    ComponentReadsBack(r.token, last);
    ComponentReadsBack(r.envelope, []);
    assert Component(r.envelope) + [] == Component(r.envelope);
    assert last[..32] == r.semantic && last[32..] == Component(r.envelope);
  }

  lemma ComponentLength(v: bytes)
    ensures |Component(v)| == Prefixed(|v|) > |v|
  {
  }

  lemma {:induction false} StoredLength(h: bytes -> bytes, r: RawStored)
    requires IsHash(h) && StoredFits(r)
    ensures |EncodeStored(h, r)| ==
              4 + 32 + Prefixed(|r.owner|) + Prefixed(|r.token|) + 32 + Prefixed(|r.envelope|) + 32
  {
    hide Component, Checked, Unchecked, StoredHead;
    ComponentLength(r.owner);
    ComponentLength(r.token);
    ComponentLength(r.envelope);
    CheckedReadsBack(h, STORED_MAGIC,
                     StoredHead(r) + (Component(r.owner) + (Component(r.token) + (r.semantic + Component(r.envelope)))));
  }

  /** Every record the journal may hold is read back exactly; anything else is refused. */
  lemma StoredReadsBack(h: bytes -> bytes, r: RawStored)
    requires IsHash(h) && StoredFits(r)
    ensures DecodeStored(h, EncodeStored(h, r)) == if StoredAcceptable(r) then Some(r) else None
  {
    hide Component, Checked, Unchecked, StoredHead, DecodeStoredTail, StoredAcceptable;
    var tail := Component(r.owner) + (Component(r.token) + (r.semantic + Component(r.envelope)));
    CheckedReadsBack(h, STORED_MAGIC, StoredHead(r) + tail);
    ComponentLength(r.owner);
    ComponentLength(r.token);
    ComponentLength(r.envelope);
    StoredTailReadsBack(r);
    assert (StoredHead(r) + tail)[..32] == StoredHead(r) && (StoredHead(r) + tail)[32..] == tail;
    if |r.envelope| == 0 { NoEnvelopeRefused(r); }
  }

  lemma NoEnvelopeRefused(r: RawStored)
    requires |r.envelope| == 0
    ensures !StoredAcceptable(r)
  {
  }

  /** The account charges exactly the encoded length. */
  lemma StoredSizeIsLength(h: bytes -> bytes, raw: RawStored, r: Stored)
    requires IsHash(h) && StoredFits(raw)
    requires |raw.owner| == |r.claimOwner| && |raw.envelope| == r.envelope.size
    requires |raw.token| == if r.claimToken.Some? then TOKEN_BYTES else 0
    ensures |EncodeStored(h, raw)| == StoredSize(r)
  {
    hide Uvarint, EncodeStored;
    StoredLength(h, raw);
  }

  // ---------------------------------------------------------------- batches

  predicate MemberFits(m: Member) {
    |m.id| < U64 && m.priority < 256 && |m.semantic| == 32
  }

  function EncodeMember(m: Member): bytes
    requires MemberFits(m)
  {
    Component(m.id) + ([m.priority] + m.semantic)
  }

  function EncodeMembers(s: seq<Member>): bytes
    requires forall i :: 0 <= i < |s| ==> MemberFits(s[i])
  {
    if s == [] then [] else EncodeMember(s[0]) + EncodeMembers(s[1..])
  }

  function EncodeIds(s: seq<bytes>): bytes {
    if s == [] then [] else Component(s[0]) + EncodeIds(s[1..])
  }

  predicate BatchFits(t: Batch) {
    && |t.original| < U64 && |t.live| < U64
    && (forall i :: 0 <= i < |t.original| ==> MemberFits(t.original[i]))
    && (forall i :: 0 <= i < |t.live| ==> |t.live[i]| < U64)
  }

  const BATCH_MAGIC: bytes := [74, 66, 86, 50]

  /** encodeBatch. */
  function EncodeBatch(h: bytes -> bytes, t: Batch): bytes
    requires BatchFits(t)
  {
    Checked(h, BATCH_MAGIC,
            Uvarint(|t.original|) + (EncodeMembers(t.original) + (Uvarint(|t.live|) + EncodeIds(t.live))))
  }

  function DecodeMember(b: bytes): (r: Option<(Member, bytes)>)
    ensures r.Some? ==> |r.value.1| < |b|
  {
    var id := ReadComponent(b);
    if id.None? || !ValidId(id.value.0) || |id.value.1| < 33 || id.value.1[0] > 3 then None
    else Some((Member(id.value.0, id.value.1[0], id.value.1[1..33]), id.value.1[33..]))
  }

  function DecodeMembers(b: bytes, n: nat): Option<(seq<Member>, bytes)> {
    if n == 0 then Some(([], b))
    else
      var m := DecodeMember(b);
      if m.None? then None
      else
        var rest := DecodeMembers(m.value.1, n - 1);
        if rest.None? then None else Some(([m.value.0] + rest.value.0, rest.value.1))
  }

  function DecodeId(b: bytes): Option<(bytes, bytes)> {
    var id := ReadComponent(b);
    if id.None? || !ValidId(id.value.0) then None else id
  }

  function DecodeIds(b: bytes, n: nat): Option<(seq<bytes>, bytes)> {
    if n == 0 then Some(([], b))
    else
      var id := DecodeId(b);
      if id.None? then None
      else
        var rest := DecodeIds(id.value.1, n - 1);
        if rest.None? then None else Some(([id.value.0] + rest.value.0, rest.value.1))
  }

  /** decodeBatch. */
  ghost function DecodeBatch(h: bytes -> bytes, data: bytes): Option<Batch> {
    var payload := Unchecked(h, data, BATCH_MAGIC);
    if payload.None? then None
    else
      var count := ReadUvarint(payload.value, 0);
      if count.None? || count.value.0 == 0 || count.value.0 > MAX_APPEND then None
      else
        var original := DecodeMembers(payload.value[count.value.1..], count.value.0);
        if original.None? then None
        else
          var liveCount := ReadUvarint(original.value.1, 0);
          if liveCount.None? || liveCount.value.0 > count.value.0 then None
          else
            var live := DecodeIds(original.value.1[liveCount.value.1..], liveCount.value.0);
            if live.None? || live.value.1 != [] || !BatchAcceptable(Batch(original.value.0, live.value.0)) then None
            else Some(Batch(original.value.0, live.value.0))
  }

  predicate MemberAcceptable(m: Member) {
    ValidId(m.id) && m.priority < 4
  }

  predicate MembersAcceptable(s: seq<Member>) {
    forall i :: 0 <= i < |s| ==> MemberAcceptable(s[i])
  }

  predicate IdsAcceptable(s: seq<bytes>) {
    forall i :: 0 <= i < |s| ==> ValidId(s[i])
  }

  lemma MemberReadsBack(m: Member, rest: bytes)
    requires MemberFits(m)
    ensures DecodeMember(EncodeMember(m) + rest) == if MemberAcceptable(m) then Some((m, rest)) else None
  {
    hide Component, ReadComponent, ValidId;
    var tail := [m.priority] + m.semantic + rest;
    ComponentReadsBack(m.id, tail);
    assert EncodeMember(m) + rest == Component(m.id) + tail;
    assert tail[1..33] == m.semantic && tail[33..] == rest;
  }

  lemma {:induction false} MembersReadBack(s: seq<Member>, rest: bytes)
    requires forall i :: 0 <= i < |s| ==> MemberFits(s[i])
    ensures DecodeMembers(EncodeMembers(s) + rest, |s|) == if MembersAcceptable(s) then Some((s, rest)) else None
  {
    hide EncodeMember, DecodeMember, MemberAcceptable, MemberFits;
    if s == [] {
      assert EncodeMembers(s) + rest == rest;
    } else {
      var tail := EncodeMembers(s[1..]) + rest;
      MemberReadsBack(s[0], tail);
      assert EncodeMembers(s) + rest == EncodeMember(s[0]) + tail;
      MembersReadBack(s[1..], rest);
      assert [s[0]] + s[1..] == s;
    }
  }

  lemma {:induction false} IdsReadBack(s: seq<bytes>, rest: bytes)
    requires forall i :: 0 <= i < |s| ==> |s[i]| < U64
    ensures DecodeIds(EncodeIds(s) + rest, |s|) == if IdsAcceptable(s) then Some((s, rest)) else None
  {
    hide Component, ReadComponent, ValidId;
    if s == [] {
      assert EncodeIds(s) + rest == rest;
    } else {
      var tail := EncodeIds(s[1..]) + rest;
      ComponentReadsBack(s[0], tail);
      assert EncodeIds(s) + rest == Component(s[0]) + tail;
      IdsReadBack(s[1..], rest);
      assert [s[0]] + s[1..] == s;
    }
  }

  lemma CountReadsBack(n: nat, rest: bytes)
    requires n < U64
    ensures ReadUvarint(Uvarint(n) + rest, 0) == Some((n, |Uvarint(n)|)) && (Uvarint(n) + rest)[|Uvarint(n)|..] == rest
  {
    RoomIs64Bits();
    UvarintReadsBack(n, 0, rest);
  }

  /** An acceptable batch has acceptable parts. */
  lemma AcceptableParts(t: Batch)
    requires BatchFits(t) && BatchAcceptable(t)
    ensures MembersAcceptable(t.original) && IdsAcceptable(t.live)
  {
    hide ValidId, Ascending, MembersAscending, MemberFits;
    forall i | 0 <= i < |t.original| ensures MemberAcceptable(t.original[i]) { assert t.original[i] in t.original; }
    forall i | 0 <= i < |t.live| ensures ValidId(t.live[i]) {
      assert t.live[i] in t.live;
      var m :| m in t.original && m.id == t.live[i];
    }
  }

  /** A batch the field widths can carry is read back exactly when it is acceptable, and refused otherwise. */
  lemma BatchReadsBack(h: bytes -> bytes, t: Batch)
    requires IsHash(h) && BatchFits(t)
    ensures DecodeBatch(h, EncodeBatch(h, t)) == if BatchAcceptable(t) then Some(t) else None
  {
    if BatchAcceptable(t) { AcceptableParts(t); }
    hide Checked, Unchecked, Uvarint, ReadUvarint, EncodeMembers, DecodeMembers, EncodeIds, DecodeIds,
         MembersAcceptable, IdsAcceptable,
         MemberFits, MembersAscending, Ascending, ValidId;
    var ids := EncodeIds(t.live);
    var tail := Uvarint(|t.live|) + ids;
    CheckedReadsBack(h, BATCH_MAGIC, Uvarint(|t.original|) + (EncodeMembers(t.original) + tail));
    CountReadsBack(|t.original|, EncodeMembers(t.original) + tail);
    MembersReadBack(t.original, tail);
    CountReadsBack(|t.live|, ids);
    IdsReadBack(t.live, []);
    assert ids + [] == ids;
  }

  // ---------------------------------------------------------------- the loops

  lemma {:induction false} EncodeMembersSnoc(s: seq<Member>, m: Member)
    requires MemberFits(m) && forall i :: 0 <= i < |s| ==> MemberFits(s[i])
    ensures EncodeMembers(s + [m]) == EncodeMembers(s) + EncodeMember(m)
  {
    hide EncodeMember, MemberFits;
    if s == [] {
      assert (s + [m])[1..] == [];
      assert EncodeMembers([]) == [];
    } else {
      EncodeMembersSnoc(s[1..], m);
      assert (s + [m])[1..] == s[1..] + [m];
    }
  }

  lemma {:induction false} EncodeIdsSnoc(s: seq<bytes>, id: bytes)
    ensures EncodeIds(s + [id]) == EncodeIds(s) + Component(id)
  {
    hide Component;
    if s == [] {
      assert (s + [id])[1..] == [];
    } else {
      EncodeIdsSnoc(s[1..], id);
      assert (s + [id])[1..] == s[1..] + [id];
    }
  }

  method WriteBatchPayload(t: Batch) returns (payload: bytes)
    requires BatchFits(t)
    ensures payload == Uvarint(|t.original|) + (EncodeMembers(t.original) + (Uvarint(|t.live|) + EncodeIds(t.live)))
  {
    hide Uvarint, Component, EncodeMembers, EncodeIds, MemberFits;
    payload := Uvarint(|t.original|);
    ghost var count := payload;
    NothingEncoded();
    assert t.original[..0] == [] && t.live[..0] == [];
    for i := 0 to |t.original|
      invariant payload == count + EncodeMembers(t.original[..i])
    {
      var m := t.original[i];
      EncodeMembersSnoc(t.original[..i], m);
      assert t.original[..i + 1] == t.original[..i] + [m];
      MemberBytes(m);
      payload := payload + Component(m.id);
      payload := payload + [m.priority];
      payload := payload + m.semantic;
    }
    assert t.original[..|t.original|] == t.original;
    ghost var members := payload;
    payload := payload + Uvarint(|t.live|);
    for i := 0 to |t.live|
      invariant payload == members + Uvarint(|t.live|) + EncodeIds(t.live[..i])
    {
      EncodeIdsSnoc(t.live[..i], t.live[i]);
      assert t.live[..i + 1] == t.live[..i] + [t.live[i]];
      payload := payload + Component(t.live[i]);
    }
    assert t.live[..|t.live|] == t.live;
  }

  lemma NothingEncoded()
    ensures EncodeMembers([]) == [] && EncodeIds([]) == []
  {
  }

  lemma MemberBytes(m: Member)
    requires MemberFits(m)
    ensures m.priority < 256 && EncodeMember(m) == Component(m.id) + [m.priority] + m.semantic
  {
  }

  method ReadMembers(payload: bytes, n: nat) returns (r: Option<(seq<Member>, bytes)>)
    ensures r == DecodeMembers(payload, n)
  {
    hide DecodeMember;
    var members: seq<Member>, rest := [], payload;
    ghost var all := DecodeMembers(payload, n);
    assert all.Some? ==> members + all.value.0 == all.value.0;
    for i := 0 to n
      invariant DecodeMembers(payload, n)
                == var d := DecodeMembers(rest, n - i); if d.None? then None else Some((members + d.value.0, d.value.1))
    {
      var m := DecodeMember(rest);
      if m.None? { return None; }
      ghost var d := DecodeMembers(m.value.1, n - i - 1);
      if d.Some? { assert members + ([m.value.0] + d.value.0) == (members + [m.value.0]) + d.value.0; }
      members, rest := members + [m.value.0], m.value.1;
    }
    assert members + [] == members;
    r := Some((members, rest));
  }

  method ReadIds(payload: bytes, n: nat) returns (r: Option<(seq<bytes>, bytes)>)
    ensures r == DecodeIds(payload, n)
  {
    hide DecodeId;
    var ids: seq<bytes>, rest := [], payload;
    ghost var all := DecodeIds(payload, n);
    assert all.Some? ==> ids + all.value.0 == all.value.0;
    for i := 0 to n
      invariant DecodeIds(payload, n)
                == var d := DecodeIds(rest, n - i); if d.None? then None else Some((ids + d.value.0, d.value.1))
    {
      var id := DecodeId(rest);
      if id.None? { return None; }
      ghost var d := DecodeIds(id.value.1, n - i - 1);
      if d.Some? { assert ids + ([id.value.0] + d.value.0) == (ids + [id.value.0]) + d.value.0; }
      ids, rest := ids + [id.value.0], id.value.1;
    }
    assert ids + [] == ids;
    r := Some((ids, rest));
  }

  // ---------------------------------------------------------------- batch sizes

  lemma {:induction false} MembersLength(s: seq<Member>)
    requires forall i :: 0 <= i < |s| ==> MemberFits(s[i])
    ensures |EncodeMembers(s)| == MembersSize(s)
  {
    hide Uvarint;
    if s != [] {
      var n := |s| - 1;
      MembersLength(s[..n]);
      EncodeMembersSnoc(s[..n], s[n]);
      assert s == s[..n] + [s[n]];
    }
  }

  lemma {:induction false} IdsLength(s: seq<bytes>)
    ensures |EncodeIds(s)| == IdsSize(s)
  {
    hide Uvarint;
    if s != [] {
      var n := |s| - 1;
      IdsLength(s[..n]);
      EncodeIdsSnoc(s[..n], s[n]);
      assert s == s[..n] + [s[n]];
    }
  }

  /** The account charges a batch exactly its encoded length. */
  lemma BatchSizeIsLength(h: bytes -> bytes, t: Batch)
    requires IsHash(h) && BatchFits(t)
    ensures |EncodeBatch(h, t)| == BatchSize(t)
  {
    hide Uvarint, Checked, Unchecked;
    MembersLength(t.original);
    IdsLength(t.live);
    CheckedReadsBack(h, BATCH_MAGIC,
                     Uvarint(|t.original|) + (EncodeMembers(t.original) + (Uvarint(|t.live|) + EncodeIds(t.live))));
  }

  // ---------------------------------------------------------------- tombstones

  const TOMB_MAGIC: bytes := [74, 81, 86, 50]
  const LEGACY_MAGIC: bytes := [74, 81, 86, 49]

  /** What the field widths can carry. */
  predicate TombstoneFits(q: Tombstone) {
    && q.reason < 256 && ValidTime(q.at) && q.attempt < U32 && |q.id| < U64
    && if q.legacy then q.priority == 0 && q.semantic == [] else q.priority < 256 && |q.semantic| == 32
  }

  function TombstoneHead(q: Tombstone): (b: bytes)
    requires TombstoneFits(q)
    ensures |b| == 14
  {
    [q.reason, 1] + TimeBytes(q.at) + BigEndian(q.attempt, 4)
  }

  /** encodeQuarantine and encodeLegacyQuarantine. */
  function EncodeTombstone(h: bytes -> bytes, q: Tombstone): bytes
    requires TombstoneFits(q)
  {
    if q.legacy then Checked(h, LEGACY_MAGIC, TombstoneHead(q) + Component(q.id))
    else Checked(h, TOMB_MAGIC, TombstoneHead(q) + ([q.priority] + q.semantic + Component(q.id)))
  }

  /** decodeQuarantine; a legacy tombstone has no digest and priority 0. */
  function DecodeTombstone(h: bytes -> bytes, data: bytes): Option<Tombstone> {
    var sealed := Unchecked(h, data, TOMB_MAGIC);
    var payload := if sealed.Some? then sealed else Unchecked(h, data, LEGACY_MAGIC);
    var legacy := sealed.None?;
    if payload.None? || |payload.value| < (if legacy then 15 else 48) || payload.value[1] != 1 then None
    else
      var p := payload.value;
      if p[0] < 1 || p[0] > 3 then None
      else
        var at, attempt, rest := ReadTimeBytes(p[2..10]), FromBigEndian(p[10..14]), p[14..];
        var priority, semantic := if legacy then 0 else rest[0], if legacy then [] else rest[1..33];
        var id := ReadComponent(if legacy then rest else rest[33..]);
        if attempt == 0 || id.None? || id.value.1 != [] || !ValidId(id.value.0) then None
        else if !legacy && priority > 3 then None
        else Some(Tombstone(id.value.0, p[0], at, attempt, semantic, priority, legacy))
  }

  lemma TombstoneHeadFields(q: Tombstone, rest: bytes)
    requires TombstoneFits(q)
    ensures var b := TombstoneHead(q) + rest;
            |b| == 14 + |rest| && b[0] == q.reason && b[1] == 1 && b[2..10] == TimeBytes(q.at) &&
            b[10..14] == BigEndian(q.attempt, 4) && b[14..] == rest
  {
    hide BigEndian, ValidId;
  }

  lemma IdComponentReadsBack(id: bytes)
    requires |id| < U64
    ensures ReadComponent(Component(id)) == Some((id, [])) && |Component(id)| == Prefixed(|id|) > 0
  {
    ComponentReadsBack(id, []);
    assert Component(id) + [] == Component(id);
  }

  /**
   * A tombstone of either format is read back exactly when it is acceptable; a legacy one is never taken for a sealed
   * one.
   */
  lemma TombstoneReadsBack(h: bytes -> bytes, q: Tombstone)
    requires IsHash(h) && TombstoneFits(q)
    ensures DecodeTombstone(h, EncodeTombstone(h, q)) == if WellBuried(q) then Some(q) else None
    ensures |EncodeTombstone(h, q)| == TombstoneSize(q)
  {
    hide Checked, Unchecked, TombstoneHead, Component, ReadComponent, BigEndian, FromBigEndian, TimeBytes,
         ReadTimeBytes, ValidId, Uvarint;
    var rest := if q.legacy then Component(q.id) else [q.priority] + q.semantic + Component(q.id);
    TombstoneHeadFields(q, rest);
    TimeBytesReadBack(q.at);
    Pow4();
    BigEndianReadsBack(q.attempt, 4);
    IdComponentReadsBack(q.id);
    CheckedReadsBack(h, if q.legacy then LEGACY_MAGIC else TOMB_MAGIC, TombstoneHead(q) + rest);
    if q.legacy {
      MagicSeparates(h, LEGACY_MAGIC, TOMB_MAGIC, TombstoneHead(q) + rest);
    } else {
      assert rest[1..33] == q.semantic && rest[33..] == Component(q.id);
    }
  }
}
