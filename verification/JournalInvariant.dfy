/** Every journal transition keeps the structural half of the verify invariant. */
module JournalInvariant {
  import opened Basics
  import opened JournalKeys
  import opened JournalModel

  // ---------------------------------------------------------------- frames

  predicate IsLink(k: Key) {
    k.BatchKey? || k.RefKey? || k.OriginalKey?
  }

  /** Same batches and references, and every record keeps its identity fields. */
  ghost predicate SameLinks(db: Db, db': Db) {
    && (forall k :: IsLink(k) ==> (k in db' <==> k in db))
    && (forall k :: IsLink(k) && k in db ==> db'[k] == db[k])
    && (forall id :: HasRecord(db', id) <==> HasRecord(db, id))
    && (forall id :: HasRecord(db, id) ==> Record(db', id).semantic == Record(db, id).semantic &&
                                           Record(db', id).priority == Record(db, id).priority)
  }

  lemma LinkedFrame(cfg: Config, db: Db, db': Db)
    requires Linked(cfg, db) && SameLinks(db, db')
    ensures Linked(cfg, db')
  {
    forall b ensures HasBatch(db', b) <==> HasBatch(db, b)
             ensures HasBatch(db, b) ==> BatchOf(db', b) == BatchOf(db, b)
    {
      assert IsLink(BatchKey(b));
    }
    forall id, b ensures RefKey(id, b) in db' <==> RefKey(id, b) in db
                 ensures OriginalKey(id, b) in db' <==> OriginalKey(id, b) in db
    {
      assert IsLink(RefKey(id, b)) && IsLink(OriginalKey(id, b));
    }
    forall id ensures RefSet(db', id) == RefSet(db, id) && OriginalSet(db', id) == OriginalSet(db, id) {
    }
    hide WellBatched;
    forall b, m | HasBatch(db', b) && m in BatchOf(db', b).original ensures MemberLinked(db', b, m) {
      assert MemberLinked(db, b, m);
    }
  }

  // ---------------------------------------------------------------- a record changes state

  lemma RestateAt(db: Db, id: bytes, r: Stored, k: Key)
    requires HasRecord(db, id)
    ensures var db' := Restate(db, id, r); var old' := IndexOf(id, Record(db, id));
            && (k in db' <==> k == RecordKey(id) || k == IndexOf(id, r) || (k == ReserveKey(id) && r.state.Pending?) ||
                              (k in db && k != old' && k != ReserveKey(id)))
            && (k in db' ==> db'[k] == if k == RecordKey(id) then Rec(r) else if k == IndexOf(id, r) then Empty
                                       else if k == ReserveKey(id) then Reserve else db[k])
  {
  }

  lemma RestateLinks(db: Db, id: bytes, r: Stored)
    requires HasRecord(db, id) && r.priority == Record(db, id).priority && r.semantic == Record(db, id).semantic
    ensures SameLinks(db, Restate(db, id, r))
    ensures forall x :: x != id && HasRecord(db, x) ==> Record(Restate(db, id, r), x) == Record(db, x)
    ensures Record(Restate(db, id, r), id) == r
  {
    var db' := Restate(db, id, r);
    forall k ensures IsLink(k) ==> (k in db' <==> k in db) && (k in db ==> db'[k] == db[k]) { RestateAt(db, id, r, k); }
    forall x ensures (HasRecord(db', x) <==> HasRecord(db, x)) &&
                     (HasRecord(db, x) ==> Record(db', x) == if x == id then r else Record(db, x)) {
      RestateAt(db, id, r, RecordKey(x));
    }
  }

  /** What one record, one index entry and one reserve look like after the change. */
  lemma RestateIndexedAt(db: Db, id: bytes, r: Stored, x: bytes, k: Key)
    requires Indexed(db) && HasRecord(db, id) && r.priority == Record(db, id).priority
    requires r.semantic == Record(db, id).semantic
    ensures var db' := Restate(db, id, r);
            && (HasRecord(db', x) ==> IndexOf(x, Record(db', x)) in db')
            && (k in db' && IsIndex(k) ==> HasRecord(db', k.id) && IndexOf(k.id, Record(db', k.id)) == k)
            && (ReserveKey(x) in db' <==> HasRecord(db', x) && Record(db', x).state.Pending?)
            && (QuarantineKey(x) in db' ==> !HasRecord(db', x))
  {
    var db' := Restate(db, id, r);
    RestateLinks(db, id, r);
    RestateAt(db, id, r, k);
    RestateAt(db, id, r, ReserveKey(x));
    RestateAt(db, id, r, QuarantineKey(x));
    RestateAt(db, id, r, IndexOf(x, if HasRecord(db, x) && x != id then Record(db, x) else r));
    if HasRecord(db, x) { assert IndexOf(x, Record(db, x)) in db; }
    hide Restate, SameLinks;
    if k in db' && IsIndex(k) && k != IndexOf(id, r) {
      assert HasRecord(db, k.id) && IndexOf(k.id, Record(db, k.id)) == k;
    }
  }

  lemma RestateIndexed(db: Db, id: bytes, r: Stored)
    requires Indexed(db) && HasRecord(db, id) && r.priority == Record(db, id).priority
    requires r.semantic == Record(db, id).semantic
    ensures Indexed(Restate(db, id, r))
  {
    hide Restate, IndexOf, HasRecord, Record;
    var db' := Restate(db, id, r);
    forall x ensures HasRecord(db', x) ==> IndexOf(x, Record(db', x)) in db'
             ensures ReserveKey(x) in db' <==> HasRecord(db', x) && Record(db', x).state.Pending?
             ensures QuarantineKey(x) in db' ==> !HasRecord(db', x) { RestateIndexedAt(db, id, r, x, RecordKey(x)); }
    forall k | k in db' && IsIndex(k) ensures HasRecord(db', k.id) && IndexOf(k.id, Record(db', k.id)) == k {
      RestateIndexedAt(db, id, r, k.id, k);
    }
  }

  lemma RestateTyped(cfg: Config, db: Db, id: bytes, r: Stored)
    requires Typed(cfg, db) && HasRecord(db, id) && WellStored(cfg, id, r)
    ensures Typed(cfg, Restate(db, id, r))
  {
    var db' := Restate(db, id, r);
    assert Fits(cfg, RecordKey(id), db[RecordKey(id)]);
    forall k | k in db' ensures Fits(cfg, k, db'[k]) { RestateAt(db, id, r, k); }
  }

  lemma RestateStructured(cfg: Config, db: Db, id: bytes, r: Stored)
    requires Structured(cfg, db) && HasRecord(db, id) && WellStored(cfg, id, r)
    requires r.priority == Record(db, id).priority && r.semantic == Record(db, id).semantic
    ensures Structured(cfg, Restate(db, id, r))
  {
    hide Typed, Indexed, Linked, Restate, SameLinks, WellStored;
    RestateTyped(cfg, db, id, r);
    RestateIndexed(db, id, r);
    RestateLinks(db, id, r);
    LinkedFrame(cfg, db, Restate(db, id, r));
  }

  lemma MovedIsWell(cfg: Config, id: bytes, r: Stored, move: Move)
    requires WellStored(cfg, id, r) && Movable(r, move)
    ensures WellStored(cfg, id, Moved(cfg, id, r, move))
    ensures Moved(cfg, id, r, move).priority == r.priority && Moved(cfg, id, r, move).semantic == r.semantic
  {
  }

  ghost predicate AllMovable(db: Db, ids: seq<bytes>, move: Move) {
    && (forall i :: 0 <= i < |ids| ==> HasRecord(db, ids[i]) && Movable(Record(db, ids[i]), move))
    && (forall i, j :: 0 <= i < j < |ids| ==> ids[i] != ids[j])
  }

  /** The same identities, each named one moved and every other untouched. */
  ghost predicate MovedExactly(cfg: Config, db: Db, db': Db, ids: seq<bytes>, move: Move) {
    && (forall id :: HasRecord(db', id) <==> HasRecord(db, id))
    && (forall id :: HasRecord(db, id) ==>
         Record(db', id) == if id in ids then Moved(cfg, id, Record(db, id), move) else Record(db, id))
  }

  lemma MoveOneStructured(cfg: Config, db: Db, id: bytes, move: Move)
    requires Structured(cfg, db) && HasRecord(db, id) && Movable(Record(db, id), move)
    ensures Structured(cfg, MoveOne(cfg, db, id, move)) && MovedExactly(cfg, db, MoveOne(cfg, db, id, move), [id], move)
  {
    assert Fits(cfg, RecordKey(id), db[RecordKey(id)]);
    MovedIsWell(cfg, id, Record(db, id), move);
    hide Structured, Moved, Restate, WellStored, Movable;
    var r := Moved(cfg, id, Record(db, id), move);
    RestateStructured(cfg, db, id, r);
    RestateLinks(db, id, r);
  }

  lemma MovedSnoc(cfg: Config, db: Db, mid: Db, db': Db, ids: seq<bytes>, id: bytes, move: Move)
    requires MovedExactly(cfg, db, mid, ids, move) && MovedExactly(cfg, mid, db', [id], move) && id !in ids
    ensures MovedExactly(cfg, db, db', ids + [id], move)
  {
    hide HasRecord, Record, Moved;
  }

  lemma NextMovable(cfg: Config, db: Db, mid: Db, ids: seq<bytes>, n: nat, move: Move)
    requires n < |ids| && AllMovable(db, ids, move)
    ensures AllMovable(db, ids[..n], move) && ids[n] !in ids[..n]
    ensures MovedExactly(cfg, db, mid, ids[..n], move) ==> HasRecord(mid, ids[n]) && Movable(Record(mid, ids[n]), move)
  {
    hide HasRecord, Record, Moved, Movable;
    assert HasRecord(db, ids[n]) && Movable(Record(db, ids[n]), move);
  }

  lemma MoveAllUnfolds(cfg: Config, db: Db, ids: seq<bytes>, move: Move)
    requires ids != []
    ensures MoveAll(cfg, db, ids, move) == MoveOne(cfg, MoveAll(cfg, db, ids[..|ids| - 1], move), ids[|ids| - 1], move)
  {
    hide MoveOne;
  }

  lemma MovesNothing(cfg: Config, db: Db, move: Move)
    ensures MoveAll(cfg, db, [], move) == db && MovedExactly(cfg, db, db, [], move)
  {
  }

  /** A batch of distinct moves keeps the structure and rewrites exactly the named records. */
  lemma {:induction false} MoveAllStructured(cfg: Config, db: Db, ids: seq<bytes>, move: Move)
    requires Structured(cfg, db) && AllMovable(db, ids, move)
    ensures Structured(cfg, MoveAll(cfg, db, ids, move))
    ensures MovedExactly(cfg, db, MoveAll(cfg, db, ids, move), ids, move)
  {
    hide Structured, AllMovable, MovedExactly, MoveAll, MoveOne, Movable, HasRecord, Record;
    if ids == [] {
      MovesNothing(cfg, db, move);
    } else {
      var n := |ids| - 1;
      var mid := MoveAll(cfg, db, ids[..n], move);
      MoveAllUnfolds(cfg, db, ids, move);
      NextMovable(cfg, db, mid, ids, n, move);
      MoveAllStructured(cfg, db, ids[..n], move);
      MoveOneStructured(cfg, mid, ids[n], move);
      MovedSnoc(cfg, db, mid, MoveOne(cfg, mid, ids[n], move), ids[..n], ids[n], move);
      assert ids == ids[..n] + [ids[n]];
    }
  }

  // ---------------------------------------------------------------- a record leaves

  lemma {:induction false} WithoutMembers(ids: seq<bytes>, id: bytes)
    ensures forall x :: x in Without(ids, id) <==> x in ids && x != id
  {
    if ids != [] {
      WithoutMembers(ids[..|ids| - 1], id);
      assert ids == ids[..|ids| - 1] + [ids[|ids| - 1]];
    }
  }

  lemma {:induction false} WithoutShorter(ids: seq<bytes>, id: bytes)
    ensures |Without(ids, id)| <= |ids|
  {
    if ids != [] { WithoutShorter(ids[..|ids| - 1], id); }
  }

  lemma {:induction false} WithoutAscends(ids: seq<bytes>, id: bytes)
    requires Ascending(ids)
    ensures Ascending(Without(ids, id))
  {
    hide Less;
    if ids != [] {
      var n := |ids| - 1;
      assert Ascending(ids[..n]);
      WithoutAscends(ids[..n], id);
      WithoutMembers(ids[..n], id);
      forall i | 0 <= i < |Without(ids[..n], id)| ensures Less(Without(ids[..n], id)[i], ids[n]) {
        var x := Without(ids[..n], id)[i];
        assert x in ids[..n];
        var j :| 0 <= j < n && ids[j] == x;
      }
    }
  }

  lemma RemoveAt(db: Db, id: bytes, k: Key)
    ensures k in Remove(db, id) <==> k in db && !Dropped(db, id, k)
    ensures k in Remove(db, id) ==> Remove(db, id)[k] == Trimmed(db, id, k)
  {
  }

  lemma RemoveRecords(db: Db, id: bytes, x: bytes)
    ensures HasRecord(Remove(db, id), x) <==> HasRecord(db, x) && x != id
    ensures HasRecord(db, x) && x != id ==> Record(Remove(db, id), x) == Record(db, x)
  {
    RemoveAt(db, id, RecordKey(x));
  }

  lemma RemoveIndexed(cfg: Config, db: Db, id: bytes)
    requires Typed(cfg, db) && Indexed(db)
    ensures Typed(cfg, Remove(db, id)) && Indexed(Remove(db, id))
  {
    var db' := Remove(db, id);
    forall x ensures (HasRecord(db', x) <==> HasRecord(db, x) && x != id) &&
                     (HasRecord(db, x) && x != id ==> Record(db', x) == Record(db, x)) { RemoveRecords(db, id, x); }
    forall k
      ensures (k in db' <==> k in db && !Dropped(db, id, k)) && (k in db' ==> db'[k] == Trimmed(db, id, k))
    {
      RemoveAt(db, id, k);
    }
    hide Remove, WellStored;
    forall x | HasRecord(db', x) ensures IndexOf(x, Record(db', x)) in db' { assert IndexOf(x, Record(db, x)) in db; }
  }

  lemma RemoveBatches(db: Db, id: bytes, b: bytes)
    ensures HasBatch(Remove(db, id), b) <==> HasBatch(db, b) && !Dies(db, b, id)
    ensures HasBatch(Remove(db, id), b) ==>
              BatchOf(Remove(db, id), b) ==
              if RefKey(id, b) in db then BatchOf(db, b).(live := Without(BatchOf(db, b).live, id)) else BatchOf(db, b)
  {
    RemoveAt(db, id, BatchKey(b));
  }

  lemma RemoveWellBatched(cfg: Config, db: Db, id: bytes, b: bytes)
    requires Linked(cfg, db) && HasBatch(Remove(db, id), b)
    ensures WellBatched(BatchOf(Remove(db, id), b))
  {
    RemoveBatches(db, id, b);
    assert WellBatched(BatchOf(db, b));
    WithoutMembers(BatchOf(db, b).live, id);
    WithoutAscends(BatchOf(db, b).live, id);
    WithoutShorter(BatchOf(db, b).live, id);
    hide Remove, Ascending, MembersAscending, Linked;
  }

  lemma RemoveMemberLinked(db: Db, id: bytes, b: bytes, m: Member)
    requires HasBatch(db, b) && MemberLinked(db, b, m) && HasBatch(Remove(db, id), b)
    ensures MemberLinked(Remove(db, id), b, m)
  {
    hide Remove, Without;
    RemoveBatches(db, id, b);
    WithoutMembers(BatchOf(db, b).live, id);
    RemoveAt(db, id, OriginalKey(m.id, b));
    RemoveAt(db, id, RefKey(m.id, b));
    RemoveRecords(db, id, m.id);
  }

  lemma RemoveReferences(cfg: Config, db: Db, id: bytes, x: bytes, b: bytes)
    requires Linked(cfg, db)
    ensures RefKey(x, b) in Remove(db, id) ==> HasBatch(Remove(db, id), b) && x in BatchOf(Remove(db, id), b).live
    ensures OriginalKey(x, b) in Remove(db, id) ==>
              HasBatch(Remove(db, id), b) && exists m :: m in BatchOf(Remove(db, id), b).original && m.id == x
  {
    hide Remove, Without, WellBatched, MemberLinked, RefSet, OriginalSet;
    RemoveBatches(db, id, b);
    RemoveAt(db, id, OriginalKey(x, b));
    RemoveAt(db, id, RefKey(x, b));
    if HasBatch(db, b) { WithoutMembers(BatchOf(db, b).live, id); }
  }

  lemma Subset<T>(a: set<T>, b: set<T>)
    requires a <= b
    ensures |a| <= |b|
  {
    assert b == a + (b - a);
  }

  lemma RemoveCounts(cfg: Config, db: Db, id: bytes, x: bytes)
    requires Linked(cfg, db)
    ensures HasRecord(Remove(db, id), x) ==> RefSet(Remove(db, id), x) == RefSet(db, x)
    ensures |OriginalSet(Remove(db, id), x)| <= |OriginalSet(db, x)|
  {
    RemoveRecords(db, id, x);
    Subset(OriginalSet(Remove(db, id), x), OriginalSet(db, x));
  }

  lemma RemoveStructured(cfg: Config, db: Db, id: bytes)
    requires Structured(cfg, db)
    ensures Structured(cfg, Remove(db, id))
  {
    var db' := Remove(db, id);
    hide Typed, Indexed, Remove, WellBatched, MemberLinked, RefSet, OriginalSet, Dies, Without;
    RemoveIndexed(cfg, db, id);
    forall b | HasBatch(db', b) ensures WellBatched(BatchOf(db', b)) { RemoveWellBatched(cfg, db, id, b); }
    forall b, m | HasBatch(db', b) && m in BatchOf(db', b).original ensures MemberLinked(db', b, m) {
      RemoveBatches(db, id, b);
      RemoveMemberLinked(db, id, b, m);
    }
    forall x, b ensures RefKey(x, b) in db' ==> HasBatch(db', b) && x in BatchOf(db', b).live
                ensures OriginalKey(x, b) in db' ==>
                          HasBatch(db', b) && exists m :: m in BatchOf(db', b).original && m.id == x {
      RemoveReferences(cfg, db, id, x, b);
    }
    forall x ensures HasRecord(db', x) ==> 0 < |RefSet(db', x)| <= cfg.maxBatchRefs
             ensures |OriginalSet(db', x)| <= cfg.maxBatchRefs {
      RemoveCounts(cfg, db, id, x);
      RemoveRecords(db, id, x);
    }
  }

  lemma {:induction false} RemoveAllStructured(cfg: Config, db: Db, ids: seq<bytes>)
    requires Structured(cfg, db)
    ensures Structured(cfg, RemoveAll(db, ids))
    ensures forall id :: HasRecord(RemoveAll(db, ids), id) <==> HasRecord(db, id) && id !in ids
    ensures forall id :: HasRecord(db, id) && id !in ids ==> Record(RemoveAll(db, ids), id) == Record(db, id)
  {
    if ids != [] {
      var n := |ids| - 1;
      RemoveAllStructured(cfg, db, ids[..n]);
      var mid := RemoveAll(db, ids[..n]);
      assert ids == ids[..n] + [ids[n]];
      hide Structured, Remove;
      RemoveStructured(cfg, mid, ids[n]);
      forall x ensures (HasRecord(Remove(mid, ids[n]), x) <==> HasRecord(mid, x) && x != ids[n]) &&
                       (HasRecord(mid, x) && x != ids[n] ==> Record(Remove(mid, ids[n]), x) == Record(mid, x)) {
        RemoveRecords(mid, ids[n], x);
      }
    }
  }

  /** A tombstone for an identity that holds no record disturbs nothing. */
  lemma TombstoneStructured(cfg: Config, db: Db, id: bytes, q: Tombstone)
    requires Structured(cfg, db) && !HasRecord(db, id) && q.id == id && WellBuried(q)
    ensures Structured(cfg, db[QuarantineKey(id) := Tomb(q)])
  {
    var db' := db[QuarantineKey(id) := Tomb(q)];
    hide Linked, WellStored;
    assert forall x :: (HasRecord(db', x) <==> HasRecord(db, x)) && (HasRecord(db, x) ==> Record(db', x) == Record(db, x));
    LinkedFrame(cfg, db, db');
    assert Indexed(db') by { hide IndexOf, HasRecord, Record; }
  }

  lemma QuarantineStructured(cfg: Config, db: Db, id: bytes, reason: nat, at: int)
    requires Structured(cfg, db) && HasRecord(db, id) && !Record(db, id).state.Pending? && 1 <= reason <= 3
    requires ValidTime(at)
    ensures Structured(cfg, QuarantineOne(db, id, reason, at))
  {
    assert Fits(cfg, RecordKey(id), db[RecordKey(id)]);
    hide Structured, Remove;
    RemoveStructured(cfg, db, id);
    RemoveRecords(db, id, id);
    var r := Record(db, id);
    TombstoneStructured(cfg, Remove(db, id), id, Tombstone(id, reason, at, r.attempt, r.semantic, r.priority, false));
  }
}
