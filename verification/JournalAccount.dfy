/** The byte account: an exact sum, and the prepaid reserve that lets a full journal drain. */
module JournalAccount {
  import opened Basics
  import opened Encoding
  import opened JournalKeys
  import opened JournalModel
  import opened JournalInvariant

  // ---------------------------------------------------------------- sums over the map

  lemma {:induction false} TotalWithout(db: Db, overhead: nat, k: Key)
    requires k in db
    ensures Total(db, overhead) == Cost(k, db[k], overhead) + Total(db - {k}, overhead)
    decreases |db|
  {
    hide Cost;
    var j :| j in db && Total(db, overhead) == Cost(j, db[j], overhead) + Total(db - {j}, overhead);
    if j != k {
      TotalWithout(db - {j}, overhead, k);
      TotalWithout(db - {k}, overhead, j);
      assert db - {j} - {k} == db - {k} - {j};
    }
  }

  lemma TotalPut(db: Db, overhead: nat, k: Key, v: Value)
    ensures Total(db[k := v], overhead) == Cost(k, v, overhead) + Total(db - {k}, overhead)
  {
    TotalWithout(db[k := v], overhead, k);
    assert db[k := v] - {k} == db - {k};
  }

  lemma TotalDrop(db: Db, overhead: nat, k: Key)
    ensures Total(db - {k}, overhead) <= Total(db, overhead)
  {
    if k in db { TotalWithout(db, overhead, k); } else { assert db - {k} == db; }
  }

  /** Entry by entry no dearer means no dearer in all. */
  lemma {:induction false} TotalCovered(db: Db, db': Db, overhead: nat)
    requires forall k :: k in db' ==> k in db && ValueSize(db'[k]) <= ValueSize(db[k])
    ensures Total(db', overhead) <= Total(db, overhead)
    decreases |db'|
  {
    hide ValueSize, KeySize;
    if db' != map[] {
      var k :| k in db';
      TotalWithout(db', overhead, k);
      TotalWithout(db, overhead, k);
      assert |db' - {k}| < |db'| by { assert (db' - {k}).Keys == db'.Keys - {k}; }
      TotalCovered(db - {k}, db' - {k}, overhead);
    }
  }

  // ---------------------------------------------------------------- the overlay

  type Ops = map<Key, Option<Value>>

  /** The map after a mutation: an operation overrides, everything else stays. */
  function Apply(db: Db, ops: Ops): Db {
    map k | k in db.Keys + ops.Keys && (if k in ops then ops[k].Some? else k in db) ::
      if k in ops && ops[k].Some? then ops[k].value else if k in db then db[k] else Empty
  }

  function Put(db: Db, k: Key, v: Option<Value>): Db {
    if v.Some? then db[k := v.value] else db - {k}
  }

  lemma ApplyNothing(db: Db)
    ensures Apply(db, map[]) == db
  {
  }

  /** Recording one more operation is performing it on top. */
  lemma ApplyOne(db: Db, ops: Ops, k: Key, v: Option<Value>)
    ensures Apply(db, ops[k := v]) == Put(Apply(db, ops), k, v)
  {
  }

  // ---------------------------------------------------------------- one record's share

  /** Bytes accounted for one record, its index entry and its reserve. */
  function Footprint(id: bytes, r: Stored, overhead: nat): nat {
    Cost(RecordKey(id), Rec(r), overhead) + Cost(IndexOf(id, r), Empty, overhead) +
    if r.state.Pending? then Cost(ReserveKey(id), JournalModel.Reserve, overhead) else 0
  }

  lemma CoreTotal(db: Db, id: bytes, overhead: nat, r: Stored, core: Db)
    requires core == db - {IndexOf(id, r), ReserveKey(id), RecordKey(id)}
    requires HasRecord(db, id) && Record(db, id) == r && IndexOf(id, r) in db && db[IndexOf(id, r)] == Empty
    requires ReserveKey(id) in db <==> r.state.Pending?
    requires ReserveKey(id) in db ==> db[ReserveKey(id)] == JournalModel.Reserve
    ensures Total(db, overhead) == Footprint(id, r, overhead) + Total(core, overhead)
  {
    hide Cost, Total;
    var x := IndexOf(id, r);
    var d1 := db - {x};
    var d2 := d1 - {ReserveKey(id)};
    TotalWithout(db, overhead, x);
    if r.state.Pending? { TotalWithout(d1, overhead, ReserveKey(id)); } else { assert d2 == d1; }
    TotalWithout(d2, overhead, RecordKey(id));
    assert d2 - {RecordKey(id)} == core;
  }

  /** A change of state moves the total by the change of the record's own share. */
  lemma RestateTotal(cfg: Config, db: Db, id: bytes, r: Stored)
    requires Structured(cfg, db) && HasRecord(db, id)
    requires r.priority == Record(db, id).priority && r.semantic == Record(db, id).semantic
    ensures Total(Restate(db, id, r), cfg.overhead) + Footprint(id, Record(db, id), cfg.overhead)
            == Total(db, cfg.overhead) + Footprint(id, r, cfg.overhead)
  {
    hide Linked, Footprint, Total, WellStored;
    var r0, db' := Record(db, id), Restate(db, id, r);
    var core := db - {IndexOf(id, r0), ReserveKey(id), RecordKey(id)};
    var core' := db' - {IndexOf(id, r), ReserveKey(id), RecordKey(id)};
    var x, x' := IndexOf(id, r0), IndexOf(id, r);
    assert x in db;
    assert Fits(cfg, x, db[x]);
    assert ReserveKey(id) in db ==> Fits(cfg, ReserveKey(id), db[ReserveKey(id)]);
    if x' in db { assert IsIndex(x') && HasRecord(db, x'.id) && IndexOf(id, r0) == x'; }
    CoreTotal(db, id, cfg.overhead, r0, core);
    assert core' == core;
    CoreTotal(db', id, cfg.overhead, r, core);
  }

  lemma UvarintSize(n: nat)
    requires n <= 128
    ensures |Uvarint(n)| == if n < 128 then 1 else 2
  {
  }

  /** The reserve prepays the largest claim; renewing costs nothing and committing gives bytes back. */
  lemma MoveFootprint(cfg: Config, id: bytes, r: Stored, move: Move)
    requires WellStored(cfg, id, r) && Movable(r, move) && !move.Expire?
    ensures Footprint(id, Moved(cfg, id, r, move), cfg.overhead) <= Footprint(id, r, cfg.overhead)
    ensures move.Renew? ==> Footprint(id, Moved(cfg, id, r, move), cfg.overhead) == Footprint(id, r, cfg.overhead)
  {
    UvarintSize(0);
    UvarintSize(TOKEN_BYTES);
    if move.Claim? { UvarintSize(|move.worker|); }
    if r.state.Claimed? { UvarintSize(|r.claimOwner|); }
    hide Uvarint;
  }

  /** An expiry may put the reserve back: the account can rise by at most the reserve. */
  lemma ExpireFootprint(cfg: Config, id: bytes, r: Stored)
    requires WellStored(cfg, id, r) && r.state.Claimed?
    ensures Footprint(id, r, cfg.overhead) < Footprint(id, Moved(cfg, id, r, Expire), cfg.overhead)
            <= Footprint(id, r, cfg.overhead) + Cost(ReserveKey(id), JournalModel.Reserve, cfg.overhead)
  {
    UvarintSize(0);
    UvarintSize(TOKEN_BYTES);
    UvarintSize(|r.claimOwner|);
    hide Uvarint;
  }

  // ---------------------------------------------------------------- the drain

  lemma MoveOneTotal(cfg: Config, db: Db, id: bytes, move: Move)
    requires Structured(cfg, db) && HasRecord(db, id) && Movable(Record(db, id), move) && !move.Expire?
    ensures Total(MoveOne(cfg, db, id, move), cfg.overhead) <= Total(db, cfg.overhead)
    ensures move.Renew? ==> Total(MoveOne(cfg, db, id, move), cfg.overhead) == Total(db, cfg.overhead)
  {
    assert Fits(cfg, RecordKey(id), db[RecordKey(id)]);
    hide Structured, Moved, Restate, WellStored, Movable, Footprint, Total;
    MovedIsWell(cfg, id, Record(db, id), move);
    MoveFootprint(cfg, id, Record(db, id), move);
    RestateTotal(cfg, db, id, Moved(cfg, id, Record(db, id), move));
  }

  /** Claiming, renewing and committing never raise the account. */
  lemma {:induction false} MoveAllDrains(cfg: Config, db: Db, ids: seq<bytes>, move: Move)
    requires Structured(cfg, db) && AllMovable(db, ids, move) && !move.Expire?
    ensures Total(MoveAll(cfg, db, ids, move), cfg.overhead) <= Total(db, cfg.overhead)
    ensures move.Renew? ==> Total(MoveAll(cfg, db, ids, move), cfg.overhead) == Total(db, cfg.overhead)
  {
    hide Structured, Moved, MoveOne, Movable, HasRecord, Record, Total;
    if ids != [] {
      var n := |ids| - 1;
      MoveAllDrains(cfg, db, ids[..n], move);
      MoveAllStructured(cfg, db, ids[..n], move);
      assert ids[n] !in ids[..n];
      assert HasRecord(db, ids[n]);
      MoveOneTotal(cfg, MoveAll(cfg, db, ids[..n], move), ids[n], move);
    }
  }

  lemma IdsSizeAppend(ids: seq<bytes>, id: bytes)
    ensures IdsSize(ids + [id]) == IdsSize(ids) + Prefixed(|id|)
  {
    assert (ids + [id])[..|ids|] == ids;
  }

  lemma {:induction false} WithoutIsSmaller(ids: seq<bytes>, id: bytes)
    ensures |Without(ids, id)| <= |ids| && IdsSize(Without(ids, id)) <= IdsSize(ids)
  {
    hide Uvarint;
    if ids != [] {
      WithoutIsSmaller(ids[..|ids| - 1], id);
      IdsSizeAppend(Without(ids[..|ids| - 1], id), ids[|ids| - 1]);
      assert Without(ids[..|ids| - 1], id) + [] == Without(ids[..|ids| - 1], id);
    }
  }

  lemma TrimmedIsSmaller(db: Db, id: bytes, k: Key)
    requires k in db
    ensures ValueSize(Trimmed(db, id, k)) <= ValueSize(db[k])
  {
    if k.BatchKey? && db[k].Bat? {
      WithoutIsSmaller(db[k].t.live, id);
      UvarintGrows(|Without(db[k].t.live, id)|, |db[k].t.live|);
      hide Uvarint, Without, IdsSize;
    }
  }

  /** Compacting never raises the account. */
  lemma RemoveDrains(db: Db, id: bytes, overhead: nat)
    ensures Total(Remove(db, id), overhead) <= Total(db, overhead)
    ensures HasRecord(db, id) ==> Total(Remove(db, id), overhead) <= Total(db - {RecordKey(id)}, overhead)
  {
    forall k | k in Remove(db, id) ensures k in db && ValueSize(Remove(db, id)[k]) <= ValueSize(db[k]) {
      TrimmedIsSmaller(db, id, k);
    }
    TotalCovered(db, Remove(db, id), overhead);
    hide Total, ValueSize, Trimmed;
    if HasRecord(db, id) { TotalCovered(db - {RecordKey(id)}, Remove(db, id), overhead); }
  }

  lemma {:induction false} RemoveAllDrains(db: Db, ids: seq<bytes>, overhead: nat)
    ensures Total(RemoveAll(db, ids), overhead) <= Total(db, overhead)
  {
    hide Total, Remove;
    if ids != [] {
      RemoveAllDrains(db, ids[..|ids| - 1], overhead);
      RemoveDrains(RemoveAll(db, ids[..|ids| - 1]), ids[|ids| - 1], overhead);
    }
  }

  /** A tombstone is never larger than the claimed record it replaces. */
  lemma TombstoneIsSmaller(cfg: Config, id: bytes, r: Stored, q: Tombstone, overhead: nat)
    requires WellStored(cfg, id, r) && r.state.Claimed? && ValidId(id) && q.id == id
    ensures Cost(QuarantineKey(id), Tomb(q), overhead) <= Cost(RecordKey(id), Rec(r), overhead)
  {
    UvarintSize(ID_BYTES);
    UvarintSize(TOKEN_BYTES);
    hide Uvarint;
  }

  /** Quarantining a claimed record never raises the account. */
  lemma QuarantineDrains(cfg: Config, db: Db, id: bytes, reason: nat, at: int)
    requires Structured(cfg, db) && HasRecord(db, id) && Record(db, id).state.Claimed?
    ensures Total(QuarantineOne(db, id, reason, at), cfg.overhead) <= Total(db, cfg.overhead)
  {
    assert Fits(cfg, RecordKey(id), db[RecordKey(id)]);
    hide Structured, Total, Remove, Cost, WellStored;
    var r := Record(db, id);
    var q := Tombstone(id, reason, at, r.attempt, r.semantic, r.priority, false);
    TombstoneIsSmaller(cfg, id, r, q, cfg.overhead);
    RemoveDrains(db, id, cfg.overhead);
    TotalWithout(db, cfg.overhead, RecordKey(id));
    TotalPut(Remove(db, id), cfg.overhead, QuarantineKey(id), Tomb(q));
    TotalDrop(Remove(db, id), cfg.overhead, QuarantineKey(id));
  }
}
