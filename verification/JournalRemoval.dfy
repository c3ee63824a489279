/** Taking a record out of every batch that references it: quarantine and compaction. */
module JournalRemoval {
  import opened Basics
  import opened JournalKeys
  import opened JournalModel
  import opened JournalInvariant
  import opened JournalAccount
  import opened JournalEvents
  import opened JournalOps

  // ---------------------------------------------------------------- removal, one batch at a time

  predicate DroppedSome(d: Db, id: bytes, done: set<bytes>, k: Key) {
    match k
    case RefKey(x, b) => x == id && b in done
    case BatchKey(b) => b in done && Dies(d, b, id)
    case OriginalKey(_, b) => b in done && Dies(d, b, id)
    case _ => Dropped(d, id, k)
  }

  function TrimmedSome(d: Db, id: bytes, done: set<bytes>, k: Key): Value
    requires k in d
  {
    if k.BatchKey? && k.batch in done then Trimmed(d, id, k) else d[k]
  }

  /** The record and its index gone, the batches in `done` already rewritten. */
  function RemoveSome(d: Db, id: bytes, done: set<bytes>): Db {
    map k | k in d && !DroppedSome(d, id, done, k) :: TrimmedSome(d, id, done, k)
  }

  lemma RemoveNone(cfg: Config, d: Db, id: bytes)
    requires Structured(cfg, d) && HasRecord(d, id) && !Record(d, id).state.Pending?
    ensures RemoveSome(d, id, {}) == d - {IndexOf(id, Record(d, id)), RecordKey(id)}
  {
    hide Typed, Linked, Dies;
    forall k ensures k in RemoveSome(d, id, {}) <==> k in d - {IndexOf(id, Record(d, id)), RecordKey(id)} {
      assert k in d && IsIndex(k) ==> IndexOf(k.id, Record(d, k.id)) == k;
    }
  }

  lemma RemoveEvery(d: Db, id: bytes, done: set<bytes>)
    requires forall b :: b in done <==> RefKey(id, b) in d
    ensures RemoveSome(d, id, done) == Remove(d, id)
  {
    hide Without;
    forall k ensures k in RemoveSome(d, id, done) <==> k in Remove(d, id) {
      if k.RefKey? { assert k in d && k.id == id ==> k.batch in done; }
    }
    forall k | k in Remove(d, id) ensures RemoveSome(d, id, done)[k] == Remove(d, id)[k] { }
  }

  function OriginalKeys(s: seq<Member>, b: bytes): set<Key> {
    set m | m in s :: OriginalKey(m.id, b)
  }

  lemma OriginalsOfBatch(cfg: Config, d: Db, b: bytes, k: Key)
    requires Linked(cfg, d) && HasBatch(d, b) && k in d && k.OriginalKey? && k.batch == b
    ensures k in OriginalKeys(BatchOf(d, b).original, b)
  {
    hide WellBatched, MemberLinked, RefSet, OriginalSet;
    var m :| m in BatchOf(d, b).original && m.id == k.id;
  }

  /** The batch loses its last live member: its reference, its originals and itself go. */
  lemma LastMemberStep(cfg: Config, d: Db, id: bytes, done: set<bytes>, b: bytes)
    requires Linked(cfg, d) && b !in done && RefKey(id, b) in d && HasBatch(d, b)
    requires Without(BatchOf(d, b).live, id) == []
    ensures RemoveSome(d, id, done + {b})
            == RemoveSome(d, id, done) - {RefKey(id, b)} - OriginalKeys(BatchOf(d, b).original, b) - {BatchKey(b)}
  {
    hide Linked, Without;
    forall k ensures k in RemoveSome(d, id, done + {b}) <==>
      k in RemoveSome(d, id, done) - {RefKey(id, b)} - OriginalKeys(BatchOf(d, b).original, b) - {BatchKey(b)} {
      if k in d && k.OriginalKey? && k.batch == b { OriginalsOfBatch(cfg, d, b, k); }
    }
  }

  /** The batch keeps other live members: its reference goes and its live list shrinks. */
  lemma ShrinkStep(cfg: Config, d: Db, id: bytes, done: set<bytes>, b: bytes)
    requires b !in done && RefKey(id, b) in d && HasBatch(d, b) && Without(BatchOf(d, b).live, id) != []
    ensures RemoveSome(d, id, done + {b})
            == (RemoveSome(d, id, done) - {RefKey(id, b)})[BatchKey(b) := Bat(BatchOf(d, b).(live := Without(BatchOf(d, b).live, id)))]
  {
    hide Without;
  }

  // ---------------------------------------------------------------- reading and writing the overlay

  /** mutation.get: the overlay first, the database below it. */
  function Lookup(db: Db, ops: Ops, k: Key): (v: Option<Value>)
    ensures v == if k in Apply(db, ops) then Some(Apply(db, ops)[k]) else None
  {
    if k in ops then ops[k] else if k in db then Some(db[k]) else None
  }

  method LiveWithout(live: seq<bytes>, id: bytes) returns (next: seq<bytes>)
    ensures next == Without(live, id)
  {
    next := [];
    for i := 0 to |live|
      invariant next == Without(live[..i], id)
    {
      assert live[..i + 1][..i] == live[..i];
      if live[i] != id { next := next + [live[i]]; }
    }
    assert live[..|live|] == live;
  }

  method DropOriginals(db: Db, before: Ops, b: bytes, original: seq<Member>) returns (ops: Ops)
    requires EncodableOps(before) && ValidIdentifier(b, MAX_BOUNDARY) && forall m :: m in original ==> ValidId(m.id)
    ensures EncodableOps(ops) && Apply(db, ops) == Apply(db, before) - OriginalKeys(original, b)
  {
    hide Apply, Hex, IdentifierByte;
    ops := before;
    assert OriginalKeys(original[..0], b) == {};
    for i := 0 to |original|
      invariant EncodableOps(ops) && Apply(db, ops) == Apply(db, before) - OriginalKeys(original[..i], b)
    {
      var k := OriginalKey(original[i].id, b);
      assert original[i] in original;
      ApplyOne(db, ops, k, None);
      assert OriginalKeys(original[..i + 1], b) == OriginalKeys(original[..i], b) + {k} by {
        assert original[..i + 1] == original[..i] + [original[i]];
      }
      ops := ops[k := None];
    }
    assert original[..|original|] == original;
  }

  lemma {:induction false} RemovedRefs(db: Db, ids: seq<bytes>, x: bytes, b: bytes)
    requires x !in ids
    ensures RefKey(x, b) in RemoveAll(db, ids) <==> RefKey(x, b) in db
  {
    if ids != [] {
      var n := |ids| - 1;
      assert ids[n] in ids;
      RemovedRefs(db, ids[..n], x, b);
      RemoveAt(RemoveAll(db, ids[..n]), ids[n], RefKey(x, b));
    }
  }

  lemma RefFacts(cfg: Config, d: Db, id: bytes, b: bytes)
    requires Structured(cfg, d) && RefKey(id, b) in d
    ensures HasBatch(d, b) && id in BatchOf(d, b).live && ValidIdentifier(b, MAX_BOUNDARY) && ValidId(id)
    ensures forall m :: m in BatchOf(d, b).original ==> ValidId(m.id)
  {
    hide ValidIdentifier, ValidId, MemberLinked, Ascending, MembersAscending, RefSet, OriginalSet, Indexed, WellStored;
    assert HasBatch(d, b) && WellBatched(BatchOf(d, b));
    assert Fits(cfg, BatchKey(b), d[BatchKey(b)]);
  }

  lemma RefKeysEncodable(cfg: Config, db: Db, id: bytes)
    requires Structured(cfg, db)
    ensures forall k :: k in RefSet(db, id) ==> Encodable(k)
  {
    hide Structured, Hex, IdentifierByte;
    forall k | k in RefSet(db, id) ensures Encodable(k) { RefFacts(cfg, db, k.id, k.batch); }
  }

  /** removeBatchRefs over a database from which `ids` are already gone in the overlay. */
  method RemoveBatchRefs(cfg: Config, db: Db, before: Ops, id: bytes, ghost ids: seq<bytes>) returns (ops: Ops)
    requires Structured(cfg, db) && id !in ids && EncodableOps(before)
    requires Apply(db, before) == RemoveSome(RemoveAll(db, ids), id, {})
    ensures EncodableOps(ops) && Apply(db, ops) == Remove(RemoveAll(db, ids), id)
  {
    hide Structured, Linked, Apply, RemoveAll, RemoveSome, Remove, Without, Encodable, Encode, Less, OriginalKeys,
         EncodableOps, ValidIdentifier, ValidId, HasBatch, BatchOf;
    ghost var d := RemoveAll(db, ids);
    RemoveAllStructured(cfg, db, ids);
    ops := before;
    RefKeysEncodable(cfg, db, id);
    var refs := SortedKeys(set k | k in db && k.RefKey? && k.id == id);
    forall i | 0 <= i < |refs| ensures refs[i].RefKey? && refs[i].id == id && refs[i] in db { assert refs[i] in refs; }
    ghost var done: set<bytes> := {};
    for i := 0 to |refs|
      invariant EncodableOps(ops) && Apply(db, ops) == RemoveSome(d, id, done)
      invariant forall b :: b in done <==> exists j :: 0 <= j < i && refs[j].batch == b
    {
      var b := refs[i].batch;
      RefIsNew(refs, id, i);
      RemovedRefs(db, ids, id, b);
      ops := RemoveOneRef(cfg, db, ops, d, id, done, b);
      done := done + {b};
    }
    forall b ensures b in done <==> RefKey(id, b) in d {
      RemovedRefs(db, ids, id, b);
      if RefKey(id, b) in db { assert RefKey(id, b) in refs; }
    }
    RemoveEvery(d, id, done);
  }

  lemma RefIsNew(refs: seq<Key>, id: bytes, i: nat)
    requires Sorted(refs) && i < |refs| && forall j :: 0 <= j < |refs| ==> refs[j].RefKey? && refs[j].id == id
    ensures forall j :: 0 <= j < i ==> refs[j].batch != refs[i].batch
  {
    hide Encode, Less, Encodable;
    forall j | 0 <= j < i ensures refs[j].batch != refs[i].batch {
      assert Less(Encode(refs[j]), Encode(refs[i]));
      LessIrreflexive(Encode(refs[i]));
    }
  }

  /** One pass of the loop: the overlay's batch record loses the member, and the batch with its last one. */
  method RemoveOneRef(cfg: Config, db: Db, before: Ops, ghost d: Db, id: bytes, ghost done: set<bytes>, b: bytes)
    returns (ops: Ops)
    requires Structured(cfg, d) && RefKey(id, b) in d && b !in done
    requires EncodableOps(before) && Apply(db, before) == RemoveSome(d, id, done)
    ensures EncodableOps(ops) && Apply(db, ops) == RemoveSome(d, id, done + {b})
  {
    hide Typed, Indexed, Linked, Apply, Without, OriginalKeys, Hex, IdentifierByte;
    RefFacts(cfg, d, id, b);
    var value := Lookup(db, before, BatchKey(b));
    assert value == Some(d[BatchKey(b)]);
    var batch := value.value.t;
    hide RemoveSome;
    var next := LiveWithout(batch.live, id);
    ApplyOne(db, before, RefKey(id, b), None);
    ops := before[RefKey(id, b) := None];
    if |next| == 0 {
      LastMemberStep(cfg, d, id, done, b);
      ops := DropOriginals(db, ops, b, batch.original);
      ApplyOne(db, ops, BatchKey(b), None);
      ops := ops[BatchKey(b) := None];
    } else {
      ShrinkStep(cfg, d, id, done, b);
      ApplyOne(db, ops, BatchKey(b), Some(Bat(batch.(live := next))));
      ops := ops[BatchKey(b) := Some(Bat(batch.(live := next)))];
    }
  }

  // ---------------------------------------------------------------- priority counts

  lemma RemoveCountsOne(cfg: Config, db: Db, id: bytes, p: nat)
    requires Typed(cfg, db) && HasRecord(db, id)
    ensures |OfPriority(Remove(db, id), p)| == |OfPriority(db, p)| - if Record(db, id).priority == p then 1 else 0
  {
    forall k ensures k in OfPriority(Remove(db, id), p) <==> k in OfPriority(db, p) - {RecordKey(id)} {
      RemoveAt(db, id, k);
      if k.RecordKey? && k in db { assert Fits(cfg, k, db[k]); }
    }
    hide Remove;
    assert OfPriority(Remove(db, id), p) == OfPriority(db, p) - {RecordKey(id)};
    if Record(db, id).priority == p { assert RecordKey(id) in OfPriority(db, p); }
  }

  /** The priority deltas a mutation carries account exactly for the records it adds and removes. */
  ghost predicate Tallied(db: Db, db': Db, deltas: seq<int>) {
    |deltas| == 4 && forall p :: 0 <= p < 4 ==> |OfPriority(db', p)| == |OfPriority(db, p)| + deltas[p]
  }

  lemma TallyRemoval(cfg: Config, db: Db, d: Db, id: bytes, deltas: seq<int>)
    requires Structured(cfg, d) && HasRecord(d, id) && Tallied(db, d, deltas)
    ensures Record(d, id).priority < 4
    ensures var p := Record(d, id).priority; Tallied(db, Remove(d, id), deltas[p := deltas[p] - 1])
  {
    hide Linked, Indexed, Remove, OfPriority;
    StoredWell(cfg, d, id);
    forall p | 0 <= p < 4
      ensures |OfPriority(Remove(d, id), p)| == |OfPriority(d, p)| - if Record(d, id).priority == p then 1 else 0
    {
      RemoveCountsOne(cfg, d, id, p);
    }
  }

  // ---------------------------------------------------------------- quarantine

  lemma QuarantineTally(cfg: Config, db: Db, id: bytes, reason: nat, at: int, deltas: seq<int>)
    requires Tallied(db, Remove(db, id), deltas) && HasRecord(db, id)
    ensures Tallied(db, QuarantineOne(db, id, reason, at), deltas)
  {
    hide Remove;
    forall p ensures OfPriority(QuarantineOne(db, id, reason, at), p) == OfPriority(Remove(db, id), p) { }
  }

  /** The overlay of one quarantine. */
  method QuarantineOps(cfg: Config, db: Db, id: bytes, reason: nat, now: int) returns (ops: Ops, deltas: seq<int>)
    requires Structured(cfg, db) && HasRecord(db, id) && Record(db, id).state.Claimed?
    ensures EncodableOps(ops) && Apply(db, ops) == QuarantineOne(db, id, reason, now)
    ensures Tallied(db, QuarantineOne(db, id, reason, now), deltas)
  {
    hide Structured, Apply, Remove, RemoveSome, Tallied, Encodable, ValidId;
    var stored := Record(db, id);
    ClaimedHasExpiry(cfg, db, id);
    RecordHasValidId(cfg, db, id);
    var index := ClaimKey(stored.claimExpiry.value, id);
    ops := map[index := None];
    ops := ops[RecordKey(id) := None];
    NoRemovals(db);
    QuarantineStart(cfg, db, id, index);
    TallyRemoval(cfg, db, db, id, [0, 0, 0, 0]) by { TallyNothing(db); }
    deltas := [0, 0, 0, 0];
    deltas := deltas[stored.priority := deltas[stored.priority] - 1];
    ops := RemoveBatchRefs(cfg, db, ops, id, []);
    var tombstone := Tomb(Tombstone(id, reason, now, stored.attempt, stored.semantic, stored.priority, false));
    ApplyOne(db, ops, QuarantineKey(id), Some(tombstone));
    QuarantineTally(cfg, db, id, reason, now, deltas);
    ops := ops[QuarantineKey(id) := Some(tombstone)];
    assert Encodable(QuarantineKey(id)) by { IdFits(id); }
  }

  lemma IdFits(id: bytes)
    requires ValidId(id)
    ensures Encodable(QuarantineKey(id)) && Encodable(RecordKey(id))
  {
  }

  lemma NoRemovals(db: Db)
    ensures RemoveAll(db, []) == db
  {
  }

  lemma TallyNothing(db: Db)
    ensures Tallied(db, db, [0, 0, 0, 0])
  {
  }

  lemma QuarantineStart(cfg: Config, db: Db, id: bytes, index: Key)
    requires Structured(cfg, db) && HasRecord(db, id) && !Record(db, id).state.Pending?
    requires index == IndexOf(id, Record(db, id))
    ensures Apply(db, map[index := None][RecordKey(id) := None]) == RemoveSome(db, id, {})
    ensures EncodableOps(map[index := None][RecordKey(id) := None])
  {
    RemoveNone(cfg, db, id);
    RecordHasValidId(cfg, db, id);
    assert index in db && IsIndex(index);
    IndexEncodable(cfg, db, index);
    hide Structured, RemoveSome, Hex;
    assert Apply(db, map[index := None][RecordKey(id) := None]) == db - {index, RecordKey(id)};
  }

  // ---------------------------------------------------------------- compaction

  ghost function ExpendableKeys(cfg: Config, db: Db, now: int): set<Key> {
    set k | k in db && k.CommittedKey? && now > k.at + cfg.safetyDelay
  }

  lemma LaterCommitsAreLater(a: Key, b: Key)
    requires a.CommittedKey? && b.CommittedKey? && Encodable(a) && Encodable(b) && |a.id| == |b.id|
    requires Less(Encode(a), Encode(b))
    ensures a.at <= b.at
  {
    CommittedKeyOrder(a.at, a.id, b.at, b.id);
  }

  lemma CutAtDeadline(cfg: Config, db: Db, ks: seq<Key>, i: nat, now: int)
    requires Structured(cfg, db) && Sorted(ks) && i < |ks|
    requires now <= (if ks[i].CommittedKey? then ks[i].at + cfg.safetyDelay else now)
    requires forall j :: 0 <= j < |ks| ==> ks[j] in db && ks[j].CommittedKey?
    ensures forall j :: i <= j < |ks| ==> now <= ks[j].at + cfg.safetyDelay
  {
    hide Structured, Encode, Less, Encodable;
    forall j | i <= j < |ks| ensures now <= ks[j].at + cfg.safetyDelay {
      IndexEncodable(cfg, db, ks[i]);
      IndexEncodable(cfg, db, ks[j]);
      if i < j { LaterCommitsAreLater(ks[i], ks[j]); }
    }
  }

  lemma RemoveAllSnoc(db: Db, ids: seq<bytes>, id: bytes)
    ensures RemoveAll(db, ids + [id]) == Remove(RemoveAll(db, ids), id)
  {
    assert (ids + [id])[..|ids|] == ids;
  }

  lemma CompactStart(cfg: Config, db: Db, ids: seq<bytes>, k: Key, ops: Ops)
    requires Structured(cfg, db) && k in db && k.CommittedKey? && k.id !in ids
    requires Apply(db, ops) == RemoveAll(db, ids) && EncodableOps(ops)
    ensures HasRecord(RemoveAll(db, ids), k.id) && Record(RemoveAll(db, ids), k.id) == Record(db, k.id)
    ensures Apply(db, ops[k := None][RecordKey(k.id) := None]) == RemoveSome(RemoveAll(db, ids), k.id, {})
    ensures EncodableOps(ops[k := None][RecordKey(k.id) := None])
  {
    hide Structured, Apply, RemoveAll, RemoveSome, Hex;
    IndexEncodable(cfg, db, k);
    RemoveAllStructured(cfg, db, ids);
    RemoveNone(cfg, RemoveAll(db, ids), k.id);
    ApplyOne(db, ops, k, None);
    ApplyOne(db, ops[k := None], RecordKey(k.id), None);
    var d := RemoveAll(db, ids);
    assert d - {k} - {RecordKey(k.id)} == d - {k, RecordKey(k.id)};
  }

  /**
   * The overlay of a compaction: the oldest expendable records, at most `limit`; stops at the first that is not yet
   * due.
   */
  method CompactOps(cfg: Config, db: Db, limit: nat, now: int)
    returns (ops: Ops, deltas: seq<int>, removed: nat, overflow: bool, ghost ks: seq<Key>)
    requires Structured(cfg, db)
    ensures overflow ==> exists k :: k in db && k.CommittedKey? && SafeAdd(k.at, cfg.safetyDelay).None?
    ensures !overflow ==> FirstKeys(ExpendableKeys(cfg, db, now), ks, limit)
    ensures |ks| == removed && forall i :: 0 <= i < |ks| ==> IsIndex(ks[i])
    ensures Distinct(KeyIds(ks)) && forall i :: 0 <= i < removed ==> Expendable(cfg, db, KeyIds(ks)[i], now)
    ensures EncodableOps(ops) && Apply(db, ops) == RemoveAll(db, KeyIds(ks))
    ensures Tallied(db, RemoveAll(db, KeyIds(ks)), deltas)
  {
    hide Structured, Apply, RemoveAll, Remove, RemoveSome, FirstKeys, Encodable, Encode, Less, EncodableOps, Tallied,
         ValidId;
    ops, deltas, removed, overflow := map[], [0, 0, 0, 0], 0, false;
    ApplyNothing(db);
    NoRemovals(db);
    TallyNothing(db);
    ghost var ids: seq<bytes> := [];
    var all := ScanIndex(cfg, db, 6);
    assert EncodableOps(ops) by { NoOps(); }
    while removed < |all| && removed < limit
      invariant removed <= |all| && removed <= limit && |ids| == removed && |deltas| == 4
      invariant forall j :: 0 <= j < removed ==> now > all[j].at + cfg.safetyDelay && ids[j] == all[j].id
      invariant Distinct(ids) && forall j :: 0 <= j < removed ==> Expendable(cfg, db, ids[j], now)
      invariant EncodableOps(ops) && Apply(db, ops) == RemoveAll(db, ids) && Tallied(db, RemoveAll(db, ids), deltas)
      decreases |all| - removed
    {
      var k := all[removed];
      var deadline := SafeAdd(k.at, cfg.safetyDelay);
      if deadline.None? {
        overflow := true;
        break;
      }
      if now <= deadline.value { break; }
      IndexEncodable(cfg, db, k);
      IndexKeyIsNew(cfg, db, all, removed, ids);
      CompactStart(cfg, db, ids, k, ops);
      RemoveAllStructured(cfg, db, ids);
      TallyRemoval(cfg, db, RemoveAll(db, ids), k.id, deltas);
      RemoveAllSnoc(db, ids, k.id);
      var stored := Record(db, k.id);
      ops := ops[k := None];
      ops := ops[RecordKey(k.id) := None];
      deltas := deltas[stored.priority := deltas[stored.priority] - 1];
      ops := RemoveBatchRefs(cfg, db, ops, k.id, ids);
      ids := ids + [k.id];
      removed := removed + 1;
    }
    ks := all[..removed];
    forall k | k in ExpendableKeys(cfg, db, now) ensures Encodable(k) && k in all { IndexEncodable(cfg, db, k); }
    if !overflow {
      if removed < |all| && removed < limit { CutAtDeadline(cfg, db, all, removed, now); }
      PrefixIsFirst(ExpendableKeys(cfg, db, now), all, removed, limit);
    }
    assert KeyIds(ks) == ids;
  }

  lemma NoOps()
    ensures EncodableOps(map[])
  {
  }
}
