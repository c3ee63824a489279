/** The journal object: its fields, its atomic commit, and every public operation over them. */
module JournalEngine {
  import opened Basics
  import opened Encoding
  import opened JournalKeys
  import opened JournalModel
  import opened JournalInvariant
  import opened JournalAppend
  import opened JournalAccount
  import opened JournalEvents
  import opened JournalOps
  import opened JournalRemoval
  import opened JournalAdmission

  const MAX_U64 := U64 - 1

  /** The capacity gate of commitMutation; `free` is what the file system reports, None when it cannot say. */
  predicate HasRoom(cfg: Config, usage: nat, next: nat, free: Option<nat>) {
    next <= usage || (next <= cfg.maxBytes && free.Some? && free.value >= cfg.minFree && next - usage <= free.value - cfg.minFree)
  }

  /** The first n operations of a sorted mutation. */
  ghost function Slice(ops: Ops, ks: seq<Key>, n: nat): Ops
    requires n <= |ks| && forall i :: 0 <= i < |ks| ==> ks[i] in ops
  {
    map k | k in ks[..n] && k in ops :: ops[k]
  }

  lemma SliceStep(ops: Ops, ks: seq<Key>, n: nat)
    requires n < |ks| && (forall i :: 0 <= i < |ks| ==> ks[i] in ops) && Sorted(ks)
    ensures Slice(ops, ks, n + 1) == Slice(ops, ks, n)[ks[n] := ops[ks[n]]]
    ensures ks[n] !in Slice(ops, ks, n)
  {
    hide Encode, Less, Encodable;
    assert ks[..n + 1] == ks[..n] + [ks[n]];
    forall i | 0 <= i < n ensures ks[i] != ks[n] { if ks[i] == ks[n] { LessIrreflexive(Encode(ks[n])); } }
  }

  lemma SliceEnds(ops: Ops, ks: seq<Key>)
    requires forall k :: k in ops <==> k in ks
    ensures (forall i :: 0 <= i < |ks| ==> ks[i] in ops) && Slice(ops, ks, 0) == map[] && Slice(ops, ks, |ks|) == ops
  {
    forall i | 0 <= i < |ks| ensures ks[i] in ops { assert ks[i] in ks; }
    assert ks[..|ks|] == ks;
  }

  /** Replacing one entry: what is subtracted is there, and what is added is bounded by what the overlay writes. */
  lemma AccountStep(db: Db, done: Ops, k: Key, v: Option<Value>, overhead: nat)
    requires k !in done
    ensures var d := Apply(db, done);
            && (k in d <==> k in db) && (k in db ==> d[k] == db[k])
            && Total(d, overhead) == Total(d - {k}, overhead) + (if k in db then Cost(k, db[k], overhead) else 0)
            && Total(Apply(db, done[k := v]), overhead) == Total(d - {k}, overhead) + (if v.Some? then Cost(k, v.value, overhead) else 0)
  {
    hide Cost, Total;
    var d := Apply(db, done);
    if k in db { TotalWithout(d, overhead, k); } else { assert d - {k} == d; }
    ApplyOne(db, done, k, v);
    if v.Some? { TotalPut(d, overhead, k, v.value); }
  }

  /** What is written on its own is no dearer than the map it is written into. */
  lemma WritesAreCovered(db: Db, ops: Ops, overhead: nat)
    ensures Total(Apply(map[], ops), overhead) <= Total(Apply(db, ops), overhead)
  {
    hide Total, ValueSize;
    TotalCovered(Apply(db, ops), Apply(map[], ops), overhead);
  }

  lemma EmptyTotal(overhead: nat)
    ensures Total(map[], overhead) == 0 && Apply(map[], map[]) == map[]
  {
  }

  lemma {:induction false} SliceCovered(ops: Ops, ks: seq<Key>, n: nat, overhead: nat)
    requires n <= |ks| && forall i :: 0 <= i < |ks| ==> ks[i] in ops
    ensures Total(Apply(map[], Slice(ops, ks, n)), overhead) <= Total(Apply(map[], ops), overhead)
  {
    hide Total, ValueSize;
    TotalCovered(Apply(map[], ops), Apply(map[], Slice(ops, ks, n)), overhead);
  }

  // ---------------------------------------------------------------- what a claim call does

  function Least(a: int, b: int): int {
    if a < b then a else b
  }

  ghost predicate SweepOf(cfg: Config, db: Db, due: seq<Key>, now: int) {
    && (forall i :: 0 <= i < |due| ==> IsIndex(due[i]))
    && (due != [] ==> Allowed(cfg, db, Lapsed(KeyIds(due)), now))
  }

  ghost predicate ClaimOf(cfg: Config, db: Db, ks: seq<Key>, worker: bytes, now: int) {
    && (forall i :: 0 <= i < |ks| ==> IsIndex(ks[i]))
    && (ks != [] ==> Allowed(cfg, db, Issued(KeyIds(ks), worker), now))
  }

  /** The journal after the expiry sweep. */
  ghost function Swept(cfg: Config, db: Db, due: seq<Key>, now: int): Db
    requires SweepOf(cfg, db, due, now)
  {
    MoveAll(cfg, db, KeyIds(due), Expire)
  }

  lemma MoveTally(cfg: Config, db: Db, ids: seq<bytes>, move: Move)
    requires Structured(cfg, db) && AllMovable(db, ids, move)
    ensures Tallied(db, MoveAll(cfg, db, ids, move), [0, 0, 0, 0])
  {
    hide Structured, MoveAll, OfPriority, AllMovable;
    MovesKeepCounts(cfg, db, ids, move);
  }

  lemma SweepFacts(cfg: Config, db: Db, due: seq<Key>, now: int)
    requires Structured(cfg, db) && ValidTime(now) && (forall i :: 0 <= i < |due| ==> IsIndex(due[i]))
    requires AllMovable(db, KeyIds(due), Expire) && forall i :: 0 <= i < |due| ==> Due(db, KeyIds(due)[i], now)
    ensures SweepOf(cfg, db, due, now) && Structured(cfg, Swept(cfg, db, due, now))
    ensures Tallied(db, Swept(cfg, db, due, now), [0, 0, 0, 0])
  {
    hide Structured, MoveAll, OfPriority, Movable, Due, Tallied;
    MoveAllStructured(cfg, db, KeyIds(due), Expire);
    MoveTally(cfg, db, KeyIds(due), Expire);
  }

  lemma NothingSwept(cfg: Config, db: Db, now: int)
    ensures SweepOf(cfg, db, [], now) && Swept(cfg, db, [], now) == db
  {
  }

  lemma SumIsValid(now: int, ttl: int)
    requires SafeAdd(now, ttl).Some?
    ensures ValidTime(now) && SafeAdd(now, ttl) == Some(now + ttl) && ValidTime(now + ttl)
  {
  }

  lemma ClaimFacts(cfg: Config, db: Db, ks: seq<Key>, worker: bytes, now: int)
    requires Structured(cfg, db) && SafeAdd(now, cfg.claimTTL).Some? && ValidOwner(worker)
    requires (forall i :: 0 <= i < |ks| ==> IsIndex(ks[i]))
    requires AllMovable(db, KeyIds(ks), Claim(worker, now + cfg.claimTTL))
    ensures ClaimOf(cfg, db, ks, worker, now)
    ensures var db' := After(cfg, db, Issued(KeyIds(ks), worker), now);
            && db' == MoveAll(cfg, db, KeyIds(ks), Claim(worker, now + cfg.claimTTL))
            && Structured(cfg, db') && Tallied(db, db', [0, 0, 0, 0])
            && Total(db', cfg.overhead) <= Total(db, cfg.overhead)
  {
    hide Structured, MoveAll, OfPriority, Tallied, Total, ValidIdentifier;
    var move := Claim(worker, now + cfg.claimTTL);
    MoveAllStructured(cfg, db, KeyIds(ks), move);
    MoveTally(cfg, db, KeyIds(ks), move);
    MoveAllDrains(cfg, db, KeyIds(ks), move);
    var ids := KeyIds(ks);
    forall i | 0 <= i < |ids|
      ensures HasRecord(db, ids[i]) && Record(db, ids[i]).state.Pending?
    {
      assert Movable(Record(db, ids[i]), move);
    }
  }

  lemma NothingClaimed(cfg: Config, db: Db, worker: bytes, now: int)
    requires Structured(cfg, db)
    ensures ClaimOf(cfg, db, [], worker, now) && After(cfg, db, Issued(KeyIds([]), worker), now) == db
    ensures FirstKeys(PendingKeys(db), [], 0) && Handed(cfg, db, KeyIds([]), Claim(worker, now + cfg.claimTTL), [])
  {
    hide Structured, Encodable;
    forall k | k in PendingKeys(db) ensures Encodable(k) { IndexEncodable(cfg, db, k); }
  }

  // ---------------------------------------------------------------- what a batched transition does

  lemma BatchedAllowed(cfg: Config, db: Db, cs: seq<Presentation>, now: int, ev: Event, ops: Ops)
    requires Structured(cfg, db) && ValidTime(now)
    requires ev == Renewed(Outstanding(db, cs)) || ev == Settled(Outstanding(db, cs))
    requires ev.Renewed? ==> SafeAdd(now, cfg.claimTTL).Some?
    requires Batched(cfg, db, cs, now, MoveOf(cfg, ev, now), ops)
    ensures Allowed(cfg, db, ev, now) && Apply(db, ops) == After(cfg, db, ev, now) && EncodableOps(ops)
    ensures Structured(cfg, After(cfg, db, ev, now)) && Tallied(db, After(cfg, db, ev, now), [0, 0, 0, 0])
    ensures Total(After(cfg, db, ev, now), cfg.overhead) <= Total(db, cfg.overhead)
    ensures ev.Renewed? ==> Total(After(cfg, db, ev, now), cfg.overhead) == Total(db, cfg.overhead)
  {
    hide Structured, MoveAll, Apply, OfPriority, Tallied, Total, Outstanding, Movable, HasRecord, Record, EncodableOps;
    MoveTally(cfg, db, MovedIds(ev), MoveOf(cfg, ev, now));
    EventStructured(cfg, db, ev, now);
    EventDrains(cfg, db, ev, now);
  }

  method SameMembers(original: seq<Member>, s: seq<Admission>) returns (same: bool)
    ensures same <==> Members(s) == original
  {
    if |original| != |s| { return false; }
    for i := 0 to |s|
      invariant forall j :: 0 <= j < i ==> Members(s)[j] == original[j]
    {
      if original[i].id != s[i].id { return false; }
      if original[i].semantic != s[i].envelope.semantic || original[i].priority != s[i].priority { return false; }
    }
    return true;
  }

  lemma PreparedFacts(b: bytes, all: seq<Admission>, s: seq<Admission>)
    requires Screened(b, all) && Prepared(all, s) && forall i :: 0 <= i < |s| ==> s[i] in all
    ensures forall i :: 0 <= i < |s| ==> ValidAdmission(s[i])
    ensures forall i, j :: 0 <= i < j < |s| ==> Less(s[i].id, s[j].id)
  {
    hide ValidAdmission, Less, FirstOf;
  }

  lemma NoBatchKey(cfg: Config, db: Db, b: bytes)
    requires Structured(cfg, db) && !HasBatch(db, b)
    ensures BatchKey(b) !in db
  {
    BatchKeyMeansBatch(cfg, db, b);
  }

  lemma BatchKeyMeansBatch(cfg: Config, db: Db, b: bytes)
    requires Structured(cfg, db)
    ensures BatchKey(b) in db ==> HasBatch(db, b)
  {
    assert BatchKey(b) in db ==> Fits(cfg, BatchKey(b), db[BatchKey(b)]);
  }

  lemma FewerRecords(db: Db, db': Db, deltas: seq<int>)
    requires Tallied(db, db', deltas) && forall id :: HasRecord(db', id) ==>
                                           HasRecord(db, id) && Record(db', id) == Record(db, id)
    ensures forall p :: 0 <= p < 4 ==> deltas[p] <= 0
  {
    forall p | 0 <= p < 4 ensures deltas[p] <= 0 {
      forall k | k in OfPriority(db', p) ensures k in OfPriority(db, p) { assert HasRecord(db', k.id); }
      Subset(OfPriority(db', p), OfPriority(db, p));
    }
  }

  lemma QuarantineNeverAdds(cfg: Config, db: Db, id: bytes, reason: nat, now: int, deltas: seq<int>)
    requires HasRecord(db, id) && Tallied(db, QuarantineOne(db, id, reason, now), deltas)
    ensures forall p :: 0 <= p < 4 ==> deltas[p] <= 0
  {
    hide Remove, Tallied;
    forall x ensures HasRecord(Remove(db, id), x) ==> HasRecord(db, x) && Record(Remove(db, id), x) == Record(db, x) {
      RemoveRecords(db, id, x);
    }
    FewerRecords(db, QuarantineOne(db, id, reason, now), deltas);
  }

  lemma CompactionNeverAdds(cfg: Config, db: Db, ids: seq<bytes>, deltas: seq<int>)
    requires Structured(cfg, db) && Tallied(db, RemoveAll(db, ids), deltas)
    ensures forall p :: 0 <= p < 4 ==> deltas[p] <= 0
  {
    hide Structured, RemoveAll, Tallied;
    RemoveAllStructured(cfg, db, ids);
    FewerRecords(db, RemoveAll(db, ids), deltas);
  }

  // ---------------------------------------------------------------- the object

  /**
   * The account and the four counters of the new state fit their 64 bits, and there is room for it where room is asked
   * for.
   */
  ghost predicate Affordable(cfg: Config, usage: nat, after: Db, capacity: bool, free: Option<nat>) {
    && usage + Total(after, cfg.overhead) <= MAX_U64
    && (forall p :: 0 <= p < 4 ==> |OfPriority(after, p)| <= MAX_U64)
    && (capacity ==> HasRoom(cfg, usage, Total(after, cfg.overhead), free))
  }

  class Journal {
    const cfg: Config
    var db: Db
    var usage: nat
    var priorities: seq<nat>
    var healthy: bool

    /** The account is exact and fits its 64-bit fields. */
    ghost predicate Accounted()
      reads this`db, this`usage, this`priorities
    {
      && usage == Total(db, cfg.overhead) && usage <= MAX_U64
      && |priorities| == 4 && forall p :: 0 <= p < 4 ==>
                                priorities[p] == |OfPriority(db, p)| && priorities[p] <= MAX_U64
    }

    ghost predicate Valid()
      reads this`db, this`usage, this`priorities
    {
      Structured(cfg, db) && Accounted()
    }

    /** openManifest over an empty directory. */
    constructor (cfg: Config)
      ensures Valid() && this.cfg == cfg && db == map[] && usage == 0 && healthy
    {
      this.cfg, db, usage, priorities, healthy := cfg, map[], 0, [0, 0, 0, 0], true;
      new;
      EmptyIsStructured(cfg);
      assert forall p :: OfPriority(map[], p) == {};
    }

    /** Apply the priority deltas, or report that a counter would overflow. */
    method NextPriorities(deltas: seq<int>, ghost after: Db) returns (next: seq<nat>, overflow: bool)
      requires Accounted() && Tallied(db, after, deltas)
      ensures |next| == 4
      ensures !overflow ==> forall p :: 0 <= p < 4 ==> next[p] == |OfPriority(after, p)| && next[p] <= MAX_U64
      ensures overflow ==> exists p :: 0 <= p < 4 && deltas[p] > 0 && |OfPriority(after, p)| > MAX_U64
    {
      hide OfPriority;
      next, overflow := priorities, false;
      for i := 0 to 4
        invariant |next| == 4 && !overflow
        invariant forall p :: 0 <= p < i ==> next[p] == |OfPriority(after, p)| && next[p] <= MAX_U64
        invariant forall p :: i <= p < 4 ==> next[p] == priorities[p]
      {
        if deltas[i] < 0 {
          var amount := -deltas[i];
          assert amount <= next[i];
          next := next[i := next[i] - amount];
        } else if deltas[i] > 0 {
          if next[i] > MAX_U64 - deltas[i] {
            overflow := true;
            return;
          }
          next := next[i := next[i] + deltas[i]];
        }
      }
    }

    /** The running account over the sorted keys: never below zero on the way, exact at the end. */
    method NextUsage(ops: Ops) returns (next: nat, overflow: bool)
      requires Accounted() && EncodableOps(ops)
      ensures !overflow ==> next == Total(Apply(db, ops), cfg.overhead) && next <= MAX_U64
      ensures overflow ==> usage + Total(Apply(db, ops), cfg.overhead) > MAX_U64
    {
      hide Apply, Total, Cost, Encodable, Encode, Less, OfPriority;
      var keys := SortedKeys(ops.Keys);
      SliceEnds(ops, keys);
      ApplyNothing(db);
      ApplyNothing(map[]);
      EmptyTotal(cfg.overhead);
      next, overflow := usage, false;
      for i := 0 to |keys|
        invariant !overflow && next == Total(Apply(db, Slice(ops, keys, i)), cfg.overhead) && next <= MAX_U64
        invariant next <= usage + Total(Apply(map[], Slice(ops, keys, i)), cfg.overhead)
      {
        var k := keys[i];
        ghost var done := Slice(ops, keys, i);
        SliceStep(ops, keys, i);
        AccountStep(db, done, k, ops[k], cfg.overhead);
        AccountStep(map[], done, k, ops[k], cfg.overhead);
        if k in db {
          var cost := Cost(k, db[k], cfg.overhead);
          assert cost <= next;
          next := next - cost;
        }
        if ops[k].Some? {
          var cost := Cost(k, ops[k].value, cfg.overhead);
          if cost > MAX_U64 || next > MAX_U64 - cost {
            overflow := true;
            SliceCovered(ops, keys, i + 1, cfg.overhead);
            WritesAreCovered(db, ops, cfg.overhead);
            return;
          }
          next := next + cost;
        }
      }
    }

    /** commitMutation: all of the mutation with its exact account, or nothing. */
    method CommitMutation(ops: Ops, deltas: seq<int>, capacity: bool, free: Option<nat>) returns (error: Option<Error>)
      requires Accounted() && EncodableOps(ops) && Tallied(db, Apply(db, ops), deltas)
      modifies this`db, this`usage, this`priorities
      ensures Accounted() && usage == Total(db, cfg.overhead)
      ensures error.None? ==> db == Apply(old(db), ops) && (capacity ==> HasRoom(cfg, old(usage), usage, free))
      ensures error.Some? ==> error.value == Capacity && unchanged(this)
      ensures error.Some? && (forall p :: 0 <= p < 4 ==> deltas[p] <= 0) && !capacity ==>
                old(usage) + Total(Apply(old(db), ops), cfg.overhead) > MAX_U64
      ensures Affordable(cfg, old(usage), Apply(old(db), ops), capacity, free) ==> error.None?
    {
      hide Apply, Total, OfPriority;
      if ops == map[] {
        ApplyNothing(db);
        return None;
      }
      var nextPriorities, tooMany := NextPriorities(deltas, Apply(db, ops));
      if tooMany { return Some(Capacity); }
      var next, overflow := NextUsage(ops);
      if overflow { return Some(Capacity); }
      if capacity && next > usage {
        var delta := next - usage;
        if next > cfg.maxBytes { return Some(Capacity); }
        if free.None? { return Some(Capacity); }
        if free.value < cfg.minFree || delta > free.value - cfg.minFree { return Some(Capacity); }
      }
      db, usage, priorities := Apply(db, ops), next, nextPriorities;
      return None;
    }

    /** AppendBatch. */
    method AppendBatch(b: bytes, admissions: seq<Admission>, free: Option<nat>)
      returns (error: Option<Error>, ghost s: seq<Admission>)
      requires Valid()
      modifies this`db, this`usage, this`priorities
      ensures Valid()
      ensures error.Some? ==> unchanged(this)
      ensures error == Some(NotHealthy) <==> !healthy
      ensures error.None? ==>
                ValidIdentifier(b, MAX_BOUNDARY) && 0 < |admissions| <= MAX_APPEND && Screened(b, admissions)
      ensures healthy && ValidIdentifier(b, MAX_BOUNDARY) && 0 < |admissions| <= MAX_APPEND && Screened(b, admissions) ==>
                && Prepared(admissions, s)
                && (HasBatch(old(db), b) ==>
                      unchanged(this) && (error.None? <==> Members(s) == BatchOf(old(db), b).original))
                && (!HasBatch(old(db), b) && !Admissible(cfg, old(db), b, s) ==>
                     error == Some(DuplicateConflict) || error == Some(Capacity))
                && (!HasBatch(old(db), b) && error.None? ==>
                     Admissible(cfg, old(db), b, s) && db == Append(old(db), b, s) &&
                     HasRoom(cfg, old(usage), usage, free))
                && (!HasBatch(old(db), b) && Admissible(cfg, old(db), b, s) ==>
                     Affordable(cfg, old(usage), Append(old(db), b, s), true, free) ==> error.None?)
    {
      hide Structured, Accounted, Less, Admissible, Append, Apply, Screened, Prepared, ValidIdentifier, Tallied,
           EncodableOps, ValidAdmission, HasRoom, Affordable;
      s := [];
      if !healthy { return Some(NotHealthy), s; }
      if !ValidIdentifier(b, MAX_BOUNDARY) || |admissions| == 0 || |admissions| > MAX_APPEND {
        return Some(InvalidInput), s;
      }
      var unique, ids, rejected := Screen(b, admissions);
      if rejected.Some? { return rejected, s; }
      var prepared := Prepare(admissions, unique, ids);
      s := prepared;
      PreparedFacts(b, admissions, prepared);
      if HasBatch(db, b) {
        var existing := BatchOf(db, b);
        var same := SameMembers(existing.original, prepared);
        return (if same then None else Some(DuplicateConflict)), s;
      }
      NoBatchKey(cfg, db, b);
      var ops, deltas, refused := AdmitAll(cfg, db, b, prepared);
      if refused.Some? { return refused, s; }
      AppendStructured(cfg, db, b, prepared);
      error := CommitMutation(ops, deltas, true, free);
    }

    /** The clock is outside the journal's range: the journal stops trusting itself. */
    method Corrupt() returns (error: Error)
      modifies this`healthy
      ensures !healthy && error == Corruption
    {
      healthy := false;
      error := Corruption;
    }

    /** Claim: an expiry sweep of its own, then the most urgent pending records. The clock is read twice. */
    method ClaimRecords(limit: int, owner: bytes, swept: int, now: int)
      returns (r: Result<seq<Handout>, Error>, ghost due: seq<Key>, ghost ks: seq<Key>)
      requires Valid()
      modifies this`db, this`usage, this`priorities, this`healthy
      ensures Valid() && (healthy ==> old(healthy))
      ensures !old(healthy) ==> r == Err(NotHealthy) && unchanged(this)
      ensures old(healthy) && !(1 <= limit <= MAX_TRANSITION && ValidOwner(owner)) ==>
                r == Err(InvalidInput) && unchanged(this)
      ensures SweepOf(cfg, old(db), due, swept)
      ensures r.Err? ==> db == old(db) || db == Swept(cfg, old(db), due, swept)
      ensures r == Err(Capacity) ==>
                old(usage) + Total(Swept(cfg, old(db), due, swept), cfg.overhead) > MAX_U64 ||
                2 * Total(Swept(cfg, old(db), due, swept), cfg.overhead) > MAX_U64
      ensures r.Ok? ==>
                && FirstKeys(DueKeys(old(db), swept), due, MAX_TRANSITION)
                && ClaimOf(cfg, Swept(cfg, old(db), due, swept), ks, owner, now)
                && |due| <= MAX_TRANSITION
                && FirstKeys(PendingKeys(Swept(cfg, old(db), due, swept)), ks, Least(limit, MAX_TRANSITION - |due|))
                && db == After(cfg, Swept(cfg, old(db), due, swept), Issued(KeyIds(ks), owner), now)
                && Handed(cfg, Swept(cfg, old(db), due, swept), KeyIds(ks), Claim(owner, now + cfg.claimTTL), r.result)
                && usage <= Total(Swept(cfg, old(db), due, swept), cfg.overhead)
    {
      hide Structured, Accounted, Apply, MoveAll, FirstKeys, EncodableOps, Tallied, ValidIdentifier, Handed, AllMovable,
           Total, Encodable;
      due, ks := [], [];
      NothingSwept(cfg, db, swept);
      if !healthy { return Err(NotHealthy), due, ks; }
      if limit < 1 || limit > MAX_TRANSITION || !ValidOwner(owner) { return Err(InvalidInput), due, ks; }
      if !ValidTime(swept) {
        var e := Corrupt();
        return Err(e), due, ks;
      }
      var lapse, expired;
      lapse, expired, due := ExpireClaims(cfg, db, MAX_TRANSITION, swept);
      SweepFacts(cfg, db, due, swept);
      var failed := CommitMutation(lapse, [0, 0, 0, 0], false, None);
      if failed.Some? {
        return Err(failed.value), due, ks;
      }
      var remaining := MAX_TRANSITION - expired;
      if remaining == 0 {
        NothingClaimed(cfg, db, owner, now);
        return Ok([]), due, ks;
      }
      var bound := if limit > remaining then remaining else limit;
      var expiry := SafeAdd(now, cfg.claimTTL);
      if expiry.None? {
        var e := Corrupt();
        return Err(e), due, ks;
      }
      SumIsValid(now, cfg.claimTTL);
      var ops, claimed, exhausted;
      ops, claimed, exhausted, ks := ClaimPending(cfg, db, bound, owner, expiry.value);
      if exhausted {
        var e := Corrupt();
        return Err(e), due, ks;
      }
      ClaimFacts(cfg, db, ks, owner, now);
      failed := CommitMutation(ops, [0, 0, 0, 0], false, None);
      if failed.Some? { return Err(failed.value), due, ks; }
      return Ok(claimed), due, ks;
    }

    /** RenewClaims: every presented claim good, or nothing changes. */
    method RenewClaims(claims: seq<Presentation>, now: int) returns (r: Result<seq<Handout>, Error>)
      requires Valid()
      modifies this`db, this`usage, this`priorities, this`healthy
      ensures Valid() && (r.Err? ==> unchanged(this`db, this`usage, this`priorities))
      ensures healthy <==> old(healthy) && r != Err(Corruption)
      ensures r.Ok? ==> 0 < |claims| <= MAX_TRANSITION && AllGood(old(db), claims, now)
      ensures old(healthy) && 0 < |claims| <= MAX_TRANSITION && AllGood(old(db), claims, now) && SafeAdd(now, cfg.claimTTL).Some? ==>
                r.Ok? || 2 * old(usage) > MAX_U64
      ensures r.Ok? ==>
                && Allowed(cfg, old(db), Renewed(Outstanding(old(db), claims)), now)
                && db == After(cfg, old(db), Renewed(Outstanding(old(db), claims)), now)
                && Handed(cfg, old(db), Ids(Outstanding(old(db), claims)), Renew(now + cfg.claimTTL), r.result)
                && usage == old(usage)
    {
      hide Structured, Apply, Allowed, After, AllGood, Batched, Tallied, EncodableOps, Handed, Total, Outstanding,
           OfPriority;
      if !healthy { return Err(NotHealthy); }
      if |claims| == 0 || |claims| > MAX_TRANSITION { return Err(InvalidInput); }
      var expiry := SafeAdd(now, cfg.claimTTL);
      if expiry.None? {
        var e := Corrupt();
        return Err(e);
      }
      SumIsValid(now, cfg.claimTTL);
      var ops, renewed, rejected := RenewAll(cfg, db, claims, now, expiry.value);
      if rejected.Some? { return Err(rejected.value); }
      BatchedAllowed(cfg, db, claims, now, Renewed(Outstanding(db, claims)), ops);
      var failed := CommitMutation(ops, [0, 0, 0, 0], false, None);
      if failed.Some? { return Err(failed.value); }
      return Ok(renewed);
    }

    /** MarkCommittedBatch: every presented claim good, or nothing changes. */
    method MarkCommittedBatch(claims: seq<Presentation>, now: int) returns (error: Option<Error>)
      requires Valid()
      modifies this`db, this`usage, this`priorities, this`healthy
      ensures Valid() && (error.Some? ==> unchanged(this`db, this`usage, this`priorities))
      ensures healthy <==> old(healthy) && error != Some(Corruption)
      ensures error.None? ==> 0 < |claims| <= MAX_TRANSITION && AllGood(old(db), claims, now)
      ensures old(healthy) && 0 < |claims| <= MAX_TRANSITION && AllGood(old(db), claims, now) && SafeAdd(now, cfg.safetyDelay).Some? ==>
                error.None? || 2 * old(usage) > MAX_U64
      ensures error.None? ==>
                && Allowed(cfg, old(db), Settled(Outstanding(old(db), claims)), now)
                && db == After(cfg, old(db), Settled(Outstanding(old(db), claims)), now)
                && usage <= old(usage)
    {
      hide Structured, Apply, Allowed, After, AllGood, Batched, Tallied, EncodableOps, Total, Outstanding, OfPriority;
      if !healthy { return Some(NotHealthy); }
      if |claims| == 0 || |claims| > MAX_TRANSITION { return Some(InvalidInput); }
      if !ValidTime(now) || SafeAdd(now, cfg.safetyDelay).None? {
        var e := Corrupt();
        return Some(e);
      }
      var ops, rejected := CommitAll(cfg, db, claims, now);
      if rejected.Some? { return rejected; }
      BatchedAllowed(cfg, db, claims, now, Settled(Outstanding(db, claims)), ops);
      error := CommitMutation(ops, [0, 0, 0, 0], false, None);
    }

    /** Quarantine: one claimed record becomes a tombstone and leaves its batches. */
    method QuarantineRecord(id: bytes, token: Option<Token>, reason: int, now: int) returns (error: Option<Error>)
      requires Valid()
      modifies this`db, this`usage, this`priorities, this`healthy
      ensures Valid() && (error.Some? ==> unchanged(this`db, this`usage, this`priorities))
      ensures healthy <==> old(healthy) && error != Some(Corruption)
      ensures error.None? ==> ValidId(id) && token.Some? && 1 <= reason <= 3
      ensures old(healthy) && ValidId(id) && token.Some? && 1 <= reason <= 3 && ValidTime(now) ==>
                (Honoured(old(db), ClaimRef(id, token.value), now) ==> error.None? || 2 * old(usage) > MAX_U64) &&
                (!Honoured(old(db), ClaimRef(id, token.value), now) ==> error == Some(StaleClaim))
      ensures error.None? ==>
                && Allowed(cfg, old(db), Quarantined(ClaimRef(id, token.value), reason), now)
                && db == After(cfg, old(db), Quarantined(ClaimRef(id, token.value), reason), now)
                && usage <= old(usage)
    {
      hide Structured, Apply, QuarantineOne, Tallied, EncodableOps, Total, OfPriority, ValidId;
      if !healthy { return Some(NotHealthy); }
      if !ValidId(id) || token.None? || reason < 1 || reason > 3 { return Some(InvalidInput); }
      if !ValidTime(now) {
        var e := Corrupt();
        return Some(e);
      }
      if !HasRecord(db, id) { return Some(StaleClaim); }
      var stored := Record(db, id);
      if !stored.state.Claimed? || stored.claimToken != token { return Some(StaleClaim); }
      ClaimedHasExpiry(cfg, db, id);
      if now >= stored.claimExpiry.value { return Some(StaleClaim); }
      var ops, deltas := QuarantineOps(cfg, db, id, reason, now);
      var ev := Quarantined(ClaimRef(id, token.value), reason);
      EventStructured(cfg, db, ev, now);
      EventDrains(cfg, db, ev, now);
      QuarantineNeverAdds(cfg, db, id, reason, now, deltas);
      error := CommitMutation(ops, deltas, false, None);
    }

    /** Compact: the oldest records past their safety delay leave for good. */
    method Compact(limit: int, now: int) returns (r: Result<nat, Error>, ghost ks: seq<Key>)
      requires Valid()
      modifies this`db, this`usage, this`priorities, this`healthy
      ensures Valid() && (r.Err? ==> unchanged(this`db, this`usage, this`priorities))
      ensures healthy <==> old(healthy) && r != Err(Corruption)
      ensures r.Ok? ==> 1 <= limit <= MAX_TRANSITION && r.result == |ks| && forall i :: 0 <= i < |ks| ==> IsIndex(ks[i])
      ensures r.Ok? ==>
                && FirstKeys(ExpendableKeys(cfg, old(db), now), ks, limit)
                && Allowed(cfg, old(db), Compacted(KeyIds(ks)), now)
                && db == After(cfg, old(db), Compacted(KeyIds(ks)), now)
                && usage <= old(usage)
      ensures r == Err(Capacity) ==> 2 * old(usage) > MAX_U64
    {
      hide Structured, Apply, RemoveAll, Tallied, EncodableOps, Total, OfPriority, FirstKeys, Expendable;
      ks := [];
      if !healthy { return Err(NotHealthy), ks; }
      if limit < 1 || limit > MAX_TRANSITION { return Err(InvalidInput), ks; }
      if !ValidTime(now) {
        var e := Corrupt();
        return Err(e), ks;
      }
      var ops, deltas, removed, overflow;
      ops, deltas, removed, overflow, ks := CompactOps(cfg, db, limit, now);
      if overflow {
        var e := Corrupt();
        return Err(e), ks;
      }
      var ev := Compacted(KeyIds(ks));
      EventStructured(cfg, db, ev, now);
      EventDrains(cfg, db, ev, now);
      CompactionNeverAdds(cfg, db, KeyIds(ks), deltas);
      var failed := CommitMutation(ops, deltas, false, None);
      if failed.Some? { return Err(failed.value), ks; }
      return Ok(removed), ks;
    }

    /** AdoptClaims: an observation; it extends no claim and counts no attempt. */
    method AdoptClaims(owner: bytes, limit: int, now: int) returns (r: Result<seq<Handout>, Error>, ghost ks: seq<Key>)
      requires Valid()
      modifies this`healthy
      ensures Valid()
      ensures healthy <==> old(healthy) && r != Err(Corruption)
      ensures r.Ok? ==> FirstKeys(HeldKeys(db, owner, now), ks, if limit < 0 then 0 else limit) && |r.result| == |ks|
      ensures r.Ok? ==> forall i :: 0 <= i < |ks| ==>
                IsIndex(ks[i]) && HasRecord(db, ks[i].id) && r.result[i] == Hand(Record(db, ks[i].id)) &&
                Current(db, ks[i].id, Token(cfg.owner, owner, ks[i].id, Record(db, ks[i].id).attempt, ks[i].at))
    {
      hide Structured, FirstKeys, Current, Hand;
      ks := [];
      if !healthy { return Err(NotHealthy), ks; }
      if limit < 1 || limit > MAX_TRANSITION || !ValidOwner(owner) { return Err(InvalidInput), ks; }
      if !ValidTime(now) {
        var e := Corrupt();
        return Err(e), ks;
      }
      var adopted;
      adopted, ks := AdoptAll(cfg, db, owner, limit, now);
      return Ok(adopted), ks;
    }
  }
}
