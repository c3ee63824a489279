/** The startup check `verify`, what it leaves out, and the orders the index keys promise. */
module JournalVerify {
  import opened Basics
  import opened JournalKeys
  import opened JournalModel
  import opened JournalInvariant
  import opened JournalAppend
  import opened JournalEvents
  import opened JournalOps

  // ---------------------------------------------------------------- the startup check

  /** The maps verify collects hold one key per identity and namespace. */
  ghost predicate NoDuplicateIndexes(db: Db) {
    forall k, l :: k in db && l in db && IsIndex(k) && IsIndex(l) && Namespace(k) == Namespace(l) && k.id == l.id ==>
      k == l
  }

  /** The loop over records: one index entry, the expected one, a reserve exactly while pending, no tombstone. */
  ghost predicate RecordsAccepted(cfg: Config, db: Db) {
    forall id :: HasRecord(db, id) ==>
      && QuarantineKey(id) !in db
      && IndexOf(id, Record(db, id)) in db
      && (forall k :: k in db && IsIndex(k) && k.id == id ==> k == IndexOf(id, Record(db, id)))
      && 0 < |RefSet(db, id)| <= cfg.maxBatchRefs
      && 0 < |OriginalSet(db, id)| <= cfg.maxBatchRefs
      && (Record(db, id).state.Pending? <==> ReserveKey(id) in db)
  }

  ghost predicate MemberAccepted(db: Db, b: bytes, m: Member)
    requires HasBatch(db, b)
  {
    && OriginalKey(m.id, b) in db
    && (if m.id in BatchOf(db, b).live
        then HasRecord(db, m.id) && Record(db, m.id).semantic == m.semantic && Record(db, m.id).priority == m.priority && RefKey(m.id, b) in db
        else RefKey(m.id, b) !in db &&
             (HasRecord(db, m.id) ==>
                Record(db, m.id).semantic == m.semantic && Record(db, m.id).priority == m.priority))
  }

  /** The loops over reserves, batches, references and original references. */
  ghost predicate LinksAccepted(cfg: Config, db: Db) {
    && (forall id :: ReserveKey(id) in db ==> HasRecord(db, id))
    && (forall b :: HasBatch(db, b) ==> WellBatched(BatchOf(db, b)))
    && (forall b, m :: HasBatch(db, b) && m in BatchOf(db, b).original ==> MemberAccepted(db, b, m))
    && (forall id, b :: RefKey(id, b) in db ==> HasRecord(db, id) && HasBatch(db, b) && id in BatchOf(db, b).live)
    && (forall id :: |OriginalSet(db, id)| <= cfg.maxBatchRefs)
    && (forall id, b :: OriginalKey(id, b) in db ==>
          HasBatch(db, b) && exists m :: m in BatchOf(db, b).original && m.id == id)
  }

  /** Every key is the bytes of one the journal can write. */
  ghost predicate Parsed(db: Db) {
    forall k :: k in db ==> Encodable(k)
  }

  /** What verify accepts of the entries outside the manifest. */
  ghost predicate VerifyAccepts(cfg: Config, db: Db) {
    Parsed(db) && Typed(cfg, db) && NoDuplicateIndexes(db) && RecordsAccepted(cfg, db) && LinksAccepted(cfg, db)
  }

  /** Every index entry belongs to a record. */
  ghost predicate NoOrphans(db: Db) {
    forall k :: k in db && IsIndex(k) ==> HasRecord(db, k.id)
  }

  lemma StructuredIsEncodable(cfg: Config, db: Db, k: Key)
    requires Structured(cfg, db) && k in db
    ensures Encodable(k)
  {
    if IsIndex(k) {
      IndexEncodable(cfg, db, k);
    } else {
      hide WellStored, WellBuried, Hex, IdentifierByte, RefSet, OriginalSet;
      assert Fits(cfg, k, db[k]);
      match k
      case RefKey(id, b) => ReferenceNames(cfg, db, id, b);
      case OriginalKey(id, b) => ReferenceNames(cfg, db, id, b);
      case ReserveKey(id) => assert Fits(cfg, RecordKey(id), db[RecordKey(id)]);
      case _ =>
    }
  }

  /** A reference names a batch of the journal and one of its members. */
  lemma ReferenceNames(cfg: Config, db: Db, id: bytes, b: bytes)
    requires Structured(cfg, db) && (RefKey(id, b) in db || OriginalKey(id, b) in db)
    ensures ValidId(id) && ValidIdentifier(b, MAX_BOUNDARY)
  {
    hide Indexed, WellStored, WellBuried, MemberLinked, Hex, IdentifierByte, RefSet, OriginalSet, Ascending,
         MembersAscending;
    assert HasBatch(db, b) && WellBatched(BatchOf(db, b));
    assert Fits(cfg, BatchKey(b), db[BatchKey(b)]);
    var m :| m in BatchOf(db, b).original && m.id == id;
  }

  lemma IndexedIsAccepted(cfg: Config, db: Db)
    requires Structured(cfg, db)
    ensures NoDuplicateIndexes(db) && NoOrphans(db) && RecordsAccepted(cfg, db)
  {
    hide Typed, WellBatched, MemberLinked, IndexOf, RefSet, OriginalSet;
    forall id | HasRecord(db, id) ensures |RefSet(db, id)| <= |OriginalSet(db, id)| { RefsAreOriginals(cfg, db, id); }
  }

  lemma LinkedIsAccepted(cfg: Config, db: Db)
    requires Structured(cfg, db)
    ensures LinksAccepted(cfg, db)
  {
    hide Typed, WellBatched, IndexOf, RefSet, OriginalSet;
    forall b, m | HasBatch(db, b) && m in BatchOf(db, b).original
      ensures MemberAccepted(db, b, m)
    {
      assert MemberLinked(db, b, m);
    }
    forall id, b | RefKey(id, b) in db ensures HasRecord(db, id) && HasBatch(db, b) && id in BatchOf(db, b).live {
      RefFactsOf(cfg, db, id, b);
    }
  }

  lemma RefFactsOf(cfg: Config, db: Db, id: bytes, b: bytes)
    requires Linked(cfg, db) && RefKey(id, b) in db
    ensures HasRecord(db, id) && HasBatch(db, b) && id in BatchOf(db, b).live
  {
    hide RefSet, OriginalSet;
    assert WellBatched(BatchOf(db, b));
    var m :| m in BatchOf(db, b).original && m.id == id;
    assert MemberLinked(db, b, m);
  }

  lemma AcceptedIsIndexed(cfg: Config, db: Db)
    requires VerifyAccepts(cfg, db) && NoOrphans(db)
    ensures Indexed(db)
  {
    hide Typed, WellBatched, MemberAccepted, IndexOf, RefSet, OriginalSet;
  }

  lemma AcceptedIsLinked(cfg: Config, db: Db)
    requires VerifyAccepts(cfg, db)
    ensures Linked(cfg, db)
  {
    hide Typed, WellBatched, IndexOf, RefSet, OriginalSet, NoDuplicateIndexes;
    forall b, m | HasBatch(db, b) && m in BatchOf(db, b).original
      ensures MemberLinked(db, b, m)
    {
      assert MemberAccepted(db, b, m);
    }
  }

  /** The invariant every operation keeps is exactly what verify checks plus the absence of orphaned index entries. */
  lemma InvariantIsVerify(cfg: Config, db: Db)
    ensures Structured(cfg, db) <==> VerifyAccepts(cfg, db) && NoOrphans(db)
  {
    hide Typed, Indexed, Linked, NoDuplicateIndexes, RecordsAccepted, LinksAccepted, NoOrphans, Encodable;
    if Structured(cfg, db) {
      forall k | k in db ensures Encodable(k) { StructuredIsEncodable(cfg, db, k); }
      IndexedIsAccepted(cfg, db);
      LinkedIsAccepted(cfg, db);
    }
    if VerifyAccepts(cfg, db) && NoOrphans(db) {
      AcceptedIsIndexed(cfg, db);
      AcceptedIsLinked(cfg, db);
    }
  }

  /** The gap is real: verify accepts a lone pending entry, which the first Claim would report as corruption. */
  lemma VerifyMissesOrphans(cfg: Config, id: bytes)
    requires |id| <= MAX_LENGTH
    ensures VerifyAccepts(cfg, map[PendingKey(0, 0, id) := Empty])
    ensures !Structured(cfg, map[PendingKey(0, 0, id) := Empty])
  {
    var db: Db := map[PendingKey(0, 0, id) := Empty];
    assert forall x :: RefSet(db, x) == {} && OriginalSet(db, x) == {} && !HasRecord(db, x);
    assert PendingKey(0, 0, id) in db && IsIndex(PendingKey(0, 0, id));
  }

  // ---------------------------------------------------------------- claims come out in order

  /** What a claim takes is in (priority, received time, id) order, and nothing left behind is more urgent. */
  lemma ClaimsComeOutInOrder(cfg: Config, db: Db, ks: seq<Key>, limit: nat)
    requires Structured(cfg, db) && FirstKeys(PendingKeys(db), ks, limit)
    ensures forall i, j :: 0 <= i < j < |ks| ==> ks[i].PendingKey? && ks[j].PendingKey? && PendingBefore(ks[i], ks[j])
    ensures forall k, i :: k in PendingKeys(db) && k !in ks && 0 <= i < |ks| ==>
              ks[i].PendingKey? && PendingBefore(ks[i], k)
  {
    hide Structured, Encode, Less, Encodable;
    forall k | k in PendingKeys(db) ensures |k.id| == ID_BYTES {
      IndexEncodable(cfg, db, k);
      IdLength(k.id);
    }
    forall i, j | 0 <= i < j < |ks| ensures ks[i].PendingKey? && ks[j].PendingKey? && PendingBefore(ks[i], ks[j]) {
      PendingKeyOrder(ks[i], ks[j]);
    }
    forall k, i | k in PendingKeys(db) && k !in ks && 0 <= i < |ks|
      ensures ks[i].PendingKey? && PendingBefore(ks[i], k)
    {
      PendingKeyOrder(ks[i], k);
    }
  }

  lemma IdLength(id: bytes)
    requires ValidId(id)
    ensures |id| == ID_BYTES
  {
  }

  /** A sweep that stopped short of its limit left no lapsed claim behind. */
  lemma SweepLeavesNothingDue(cfg: Config, db: Db, ks: seq<Key>, limit: nat, now: int)
    requires Structured(cfg, db) && FirstKeys(DueKeys(db, now), ks, limit) && |ks| < limit
    requires (forall i :: 0 <= i < |ks| ==> IsIndex(ks[i])) && AllMovable(db, KeyIds(ks), Expire)
    ensures forall id :: !Due(MoveAll(cfg, db, KeyIds(ks), Expire), id, now)
  {
    hide Structured, Encode, Less, Encodable, MoveAll, Movable, IndexOf;
    MoveAllStructured(cfg, db, KeyIds(ks), Expire);
    var db' := MoveAll(cfg, db, KeyIds(ks), Expire);
    forall id ensures !Due(db', id, now) {
      if HasRecord(db, id) && Due(db, id, now) {
        ClaimIndexOf(cfg, db, id);
        var k := ClaimKey(Record(db, id).claimExpiry.value, id);
        assert k in DueKeys(db, now);
        var i :| 0 <= i < |ks| && ks[i] == k;
        assert KeyIds(ks)[i] == id;
      }
    }
  }

  lemma ClaimIndexOf(cfg: Config, db: Db, id: bytes)
    requires Structured(cfg, db) && HasRecord(db, id) && Record(db, id).state.Claimed?
    requires Record(db, id).claimExpiry.Some?
    ensures ClaimKey(Record(db, id).claimExpiry.value, id) in db
  {
    assert IndexOf(id, Record(db, id)) in db;
  }
}
