/** AppendBatch up to its commit: screening, replay detection, the identity checks and the overlay. */
module JournalAdmission {
  import opened Basics
  import opened JournalKeys
  import opened JournalModel
  import opened JournalAppend
  import opened JournalAccount
  import opened JournalOps
  import opened JournalRemoval

  // ---------------------------------------------------------------- screening

  predicate SameIdentity(a: Admission, c: Admission) {
    a.envelope.semantic == c.envelope.semantic && a.priority == c.priority
  }

  /** Every admission is valid, of this batch, and equal to its namesakes. */
  ghost predicate Screened(b: bytes, all: seq<Admission>) {
    && (forall i :: 0 <= i < |all| ==> ValidAdmission(all[i]) && all[i].batch == b)
    && (forall i, j :: 0 <= i < j < |all| && all[i].id == all[j].id ==> SameIdentity(all[i], all[j]))
  }

  /** `id` maps to its first admission. */
  ghost predicate FirstOf(all: seq<Admission>, id: bytes, a: Admission) {
    a.id == id && exists i :: 0 <= i < |all| && all[i] == a && forall j :: 0 <= j < i ==> all[j].id != id
  }

  method Screen(b: bytes, all: seq<Admission>)
    returns (unique: map<bytes, Admission>, ids: set<bytes>, error: Option<Error>)
    ensures error.None? <==> Screened(b, all)
    ensures error.Some? ==> error.value == InvalidInput || error.value == DuplicateConflict
    ensures error.None? ==>
              ids == unique.Keys && |ids| <= |all| && (forall i :: 0 <= i < |all| ==> all[i].id in unique) &&
              (forall id :: id in unique ==> FirstOf(all, id, unique[id]))
  {
    hide ValidAdmission, FirstOf, Screened;
    unique, ids, error := map[], {}, None;
    NothingToScreen(b);
    assert all[..0] == [];
    for n := 0 to |all|
      invariant error.None? && Screened(b, all[..n]) && ids == unique.Keys && |ids| <= n
      invariant forall i :: 0 <= i < n ==> all[i].id in unique && SameIdentity(all[i], unique[all[i].id])
      invariant forall id :: id in unique ==> FirstOf(all[..n], id, unique[id])
    {
      ghost var before := unique;
      var a := all[n];
      ScreenedNext(b, all, n);
      if a.batch != b || !ValidAdmission(a) { return unique, ids, Some(InvalidInput); }
      if a.id in unique {
        var prior := unique[a.id];
        if prior.envelope.semantic != a.envelope.semantic || prior.priority != a.priority {
          Disagreement(all, n, prior);
          return unique, ids, Some(DuplicateConflict);
        }
      } else {
        unique, ids := unique[a.id := a], ids + {a.id};
      }
      FirstGrows(all, n, before, unique);
    }
    assert all[..|all|] == all;
  }

  lemma NothingToScreen(b: bytes)
    ensures Screened(b, [])
  {
  }

  /** One admission more is screened against all before it, and nothing after can mend a refusal. */
  lemma ScreenedNext(b: bytes, all: seq<Admission>, n: nat)
    requires n < |all|
    ensures Screened(b, all[..n + 1]) <==>
              Screened(b, all[..n]) && ValidAdmission(all[n]) && all[n].batch == b &&
              forall i :: 0 <= i < n && all[i].id == all[n].id ==> SameIdentity(all[i], all[n])
    ensures Screened(b, all) ==> Screened(b, all[..n + 1])
  {
    hide ValidAdmission, SameIdentity;
    assert forall i :: 0 <= i <= n ==> all[..n + 1][i] == all[i];
    assert forall i :: 0 <= i < n ==> all[..n][i] == all[i];
  }

  lemma Disagreement(all: seq<Admission>, n: nat, prior: Admission)
    requires n < |all| && FirstOf(all[..n], all[n].id, prior) && !SameIdentity(prior, all[n])
    ensures exists i :: 0 <= i < n && all[i].id == all[n].id && !SameIdentity(all[i], all[n])
  {
    var i :| 0 <= i < n && all[..n][i] == prior;
    assert all[i].id == all[n].id && !SameIdentity(all[i], all[n]);
  }

  lemma FirstGrows(all: seq<Admission>, n: nat, before: map<bytes, Admission>, unique: map<bytes, Admission>)
    requires n < |all| && unique == if all[n].id in before then before else before[all[n].id := all[n]]
    requires forall i :: 0 <= i < n ==> all[i].id in before
    requires forall id :: id in before ==> FirstOf(all[..n], id, before[id])
    ensures forall id :: id in unique ==> FirstOf(all[..n + 1], id, unique[id])
  {
    var upTo := all[..n + 1];
    assert forall j :: 0 <= j < n ==> upTo[j] == all[..n][j] == all[j];
    forall id | id in unique ensures FirstOf(upTo, id, unique[id]) {
      if id in before {
        var i :| 0 <= i < n && all[..n][i] == before[id] && forall j :: 0 <= j < i ==> all[..n][j].id != id;
        assert upTo[i] == unique[id];
      } else {
        assert upTo[n] == unique[id] && forall j :: 0 <= j < n ==> upTo[j].id != id;
      }
    }
  }

  lemma FirstOfIn(all: seq<Admission>, id: bytes, a: Admission)
    requires FirstOf(all, id, a)
    ensures a.id == id && a in all
  {
  }

  /** The distinct admissions of a batch in id order, each the first of its name. */
  ghost predicate Prepared(all: seq<Admission>, s: seq<Admission>) {
    && (forall i, j :: 0 <= i < j < |s| ==> Less(s[i].id, s[j].id))
    && (forall i :: 0 <= i < |s| ==> FirstOf(all, s[i].id, s[i]))
    && (forall i :: 0 <= i < |all| ==> Admits(s, all[i].id))
  }

  method Prepare(all: seq<Admission>, unique: map<bytes, Admission>, ids: set<bytes>) returns (s: seq<Admission>)
    requires ids == unique.Keys && (forall i :: 0 <= i < |all| ==> all[i].id in unique)
    requires forall id :: id in unique ==> FirstOf(all, id, unique[id])
    ensures Prepared(all, s) && |s| == |ids| && forall i :: 0 <= i < |s| ==> s[i] in all
  {
    hide Less, FirstOf;
    var order := SortStrings(ids);
    assert forall i :: 0 <= i < |order| ==> order[i] in order;
    s := seq(|order|, i requires 0 <= i < |order| && order[i] in unique => unique[order[i]]);
    forall i | 0 <= i < |s| ensures s[i].id == order[i] && FirstOf(all, s[i].id, s[i]) && s[i] in all {
      FirstOfIn(all, order[i], unique[order[i]]);
    }
    forall i, j | 0 <= i < j < |s| ensures Less(s[i].id, s[j].id) { assert Less(order[i], order[j]); }
    forall i | 0 <= i < |all| ensures Admits(s, all[i].id) {
      assert all[i].id in order;
      var j :| 0 <= j < |order| && order[j] == all[i].id;
      assert s[j].id == all[i].id;
    }
  }

  // ---------------------------------------------------------------- history of one identity

  /** batchMemberByID: binary search over the sorted original members. */
  method FindMember(original: seq<Member>, id: bytes) returns (found: Option<Member>)
    requires MembersAscending(original)
    ensures found.Some? ==> found.value in original && found.value.id == id
    ensures found.None? ==> forall m :: m in original ==> m.id != id
    ensures found.Some? ==> forall m :: m in original && m.id == id ==> m == found.value
  {
    hide Less;
    var lo, hi := 0, |original|;
    while lo < hi
      invariant 0 <= lo <= hi <= |original|
      invariant forall i :: 0 <= i < lo ==> Less(original[i].id, id)
      invariant forall i :: hi <= i < |original| ==> !Less(original[i].id, id)
    {
      var mid := (lo + hi) / 2;
      if Less(original[mid].id, id) {
        forall i | 0 <= i < mid
          ensures Less(original[i].id, id)
        {
          LessTransitive(original[i].id, original[mid].id, id);
        }
        lo := mid + 1;
      } else {
        forall i | mid < i < |original| ensures !Less(original[i].id, id) {
          if Less(original[i].id, id) { LessTransitive(original[mid].id, original[i].id, id); }
        }
        hi := mid;
      }
    }
    LessIrreflexive(id);
    if lo == |original| || original[lo].id != id {
      found := None;
      forall i | lo < i < |original| ensures original[i].id != id {
        assert Less(original[lo].id, original[i].id);
      }
    } else {
      found := Some(original[lo]);
    }
  }

  ghost predicate HistoryAgrees(db: Db, a: Admission) {
    forall b, m :: HasBatch(db, b) && m in BatchOf(db, b).original && m.id == a.id ==>
      m.semantic == a.envelope.semantic && m.priority == a.priority
  }

  lemma OriginalFacts(cfg: Config, db: Db, k: Key)
    requires Structured(cfg, db) && k in db && k.OriginalKey?
    ensures Encodable(k) && HasBatch(db, k.batch) && MembersAscending(BatchOf(db, k.batch).original)
    ensures exists m :: m in BatchOf(db, k.batch).original && m.id == k.id
  {
    hide Indexed, MemberLinked, RefSet, OriginalSet, Less, Hex, IdentifierByte, WellStored;
    assert HasBatch(db, k.batch) && WellBatched(BatchOf(db, k.batch));
    assert Fits(cfg, BatchKey(k.batch), db[BatchKey(k.batch)]);
  }

  lemma HasOriginal(cfg: Config, db: Db, b: bytes, m: Member)
    requires Structured(cfg, db) && HasBatch(db, b) && m in BatchOf(db, b).original
    ensures OriginalKey(m.id, b) in db
  {
    assert MemberLinked(db, b, m);
  }

  /** validateHistoricalIdentity: how many retained batches named the identity, and whether all agree with it now. */
  method History(cfg: Config, db: Db, a: Admission) returns (count: nat, conflict: bool)
    requires Structured(cfg, db)
    ensures conflict <==> !HistoryAgrees(db, a)
    ensures !conflict ==> count == |OriginalSet(db, a.id)|
  {
    hide Structured, Encodable, Encode, Less, Ascending, MembersAscending, HasBatch, BatchOf;
    forall k | k in db && k.OriginalKey? ensures Encodable(k) { OriginalFacts(cfg, db, k); }
    ghost var all := OriginalSet(db, a.id);
    var ks := SortedKeys(set k | k in db && k.OriginalKey? && k.id == a.id);
    forall i | 0 <= i < |ks| ensures ks[i] in all { assert ks[i] in ks; }
    count, conflict := 0, false;
    while count < |ks|
      invariant count <= |ks| && !conflict
      invariant forall i :: 0 <= i < count ==> Vouches(db, ks[i], a)
    {
      var k := ks[count];
      OriginalFacts(cfg, db, k);
      var member := FindMember(BatchOf(db, k.batch).original, a.id);
      if member.value.semantic != a.envelope.semantic || member.value.priority != a.priority {
        return count, true;
      }
      count := count + 1;
    }
    CountKeys(ks, all);
    forall b, m | HasBatch(db, b) && m in BatchOf(db, b).original && m.id == a.id
      ensures m.semantic == a.envelope.semantic && m.priority == a.priority
    {
      HasOriginal(cfg, db, b, m);
      assert OriginalKey(a.id, b) in ks;
      var i :| 0 <= i < |ks| && ks[i] == OriginalKey(a.id, b);
      assert Vouches(db, ks[i], a);
    }
  }

  ghost predicate Vouches(db: Db, k: Key, a: Admission) {
    k.OriginalKey? && HasBatch(db, k.batch) && forall m :: m in BatchOf(db, k.batch).original && m.id == a.id ==>
      m.semantic == a.envelope.semantic && m.priority == a.priority
  }

  lemma CountKeys(ks: seq<Key>, s: set<Key>)
    requires Sorted(ks) && forall k :: k in s <==> k in ks
    ensures |ks| == |s|
  {
    hide Encode, Less, Encodable;
    if ks == [] {
      assert s == {};
    } else {
      var n := |ks| - 1;
      var last := ks[n];
      forall i | 0 <= i < n ensures ks[i] != last { if ks[i] == last { LessIrreflexive(Encode(last)); } }
      assert ks == ks[..n] + [last];
      CountKeys(ks[..n], s - {last});
    }
  }

  // ---------------------------------------------------------------- the overlay

  lemma EntriesOfNew(db: Db, b: bytes, a: Admission, ops: Ops, d: Db)
    requires Apply(db, ops) == d && !HasRecord(db, a.id) && QuarantineKey(a.id) !in db
    ensures var r := Fresh(a);
            Apply(db, ops[RecordKey(a.id) := Some(Rec(r))][PendingKey(r.priority, r.received, a.id) := Some(Empty)]
                         [RefKey(a.id, b) := Some(Empty)][ReserveKey(a.id) := Some(JournalModel.Reserve)])
            == d + Entries(db, b, a)
  {
    var r := Fresh(a);
    var o1 := ops[RecordKey(a.id) := Some(Rec(r))];
    var o2 := o1[PendingKey(r.priority, r.received, a.id) := Some(Empty)];
    var o3 := o2[RefKey(a.id, b) := Some(Empty)];
    ApplyOne(db, ops, RecordKey(a.id), Some(Rec(r)));
    ApplyOne(db, o1, PendingKey(r.priority, r.received, a.id), Some(Empty));
    ApplyOne(db, o2, RefKey(a.id, b), Some(Empty));
    ApplyOne(db, o3, ReserveKey(a.id), Some(JournalModel.Reserve));
    hide Apply;
  }

  lemma EntriesOfOne(db: Db, b: bytes, a: Admission, ops: Ops, d: Db, k: Key, v: Value)
    requires Apply(db, ops) == d && Entries(db, b, a) == map[k := v]
    ensures Apply(db, ops[k := Some(v)]) == d + Entries(db, b, a)
  {
    ApplyOne(db, ops, k, Some(v));
  }

  lemma AllEntriesSnoc(db: Db, b: bytes, s: seq<Admission>, i: nat)
    requires i < |s|
    ensures AllEntries(db, b, s[..i + 1]) == AllEntries(db, b, s[..i]) + Entries(db, b, s[i])
    ensures LiveIds(db, s[..i + 1]) == LiveIds(db, s[..i]) + if BecomesLive(db, s[i]) then [s[i].id] else []
  {
    assert s[..i + 1][..i] == s[..i];
  }

  lemma RecordKeyMeansRecord(cfg: Config, db: Db, id: bytes)
    requires Structured(cfg, db)
    ensures RecordKey(id) in db ==> HasRecord(db, id)
  {
    assert RecordKey(id) in db ==> Fits(cfg, RecordKey(id), db[RecordKey(id)]);
  }

  lemma NotWrittenYet(cfg: Config, db: Db, b: bytes, s: seq<Admission>, i: nat)
    requires Structured(cfg, db) && i < |s| && !HasRecord(db, s[i].id)
    requires forall x, y :: 0 <= x < y < |s| ==> Less(s[x].id, s[y].id)
    ensures RecordKey(s[i].id) !in db + AllEntries(db, b, s[..i])
  {
    var k := RecordKey(s[i].id);
    RecordKeyMeansRecord(cfg, db, s[i].id);
    hide Structured, Less;
    if k in AllEntries(db, b, s[..i]) {
      var j := AllEntriesFrom(db, b, s[..i], k);
      EntriesCarryTheId(db, b, s[j], k);
      LessIrreflexive(s[i].id);
    }
  }

  predicate CreatesRecord(db: Db, a: Admission) {
    !HasRecord(db, a.id) && QuarantineKey(a.id) !in db
  }

  lemma EntriesPriority(db: Db, b: bytes, d: Db, a: Admission, p: nat)
    requires CreatesRecord(db, a) ==> RecordKey(a.id) !in d
    ensures OfPriority(d + Entries(db, b, a), p)
            == OfPriority(d, p) + if CreatesRecord(db, a) && p == a.priority then {RecordKey(a.id)} else {}
  {
    var e := Entries(db, b, a);
    if CreatesRecord(db, a) {
      assert RecordKey(a.id) in e && e[RecordKey(a.id)] == Rec(Fresh(a));
      assert forall k :: k in e && k.RecordKey? ==> k == RecordKey(a.id);
    } else {
      assert forall k :: k in e ==> !k.RecordKey?;
    }
    hide Entries;
  }

  lemma EntriesTally(db: Db, b: bytes, d: Db, a: Admission, start: Db, deltas: seq<int>)
    requires Tallied(start, d, deltas) && a.priority < 4
    requires CreatesRecord(db, a) ==> RecordKey(a.id) !in d
    ensures Tallied(start, d + Entries(db, b, a), if CreatesRecord(db, a) then deltas[a.priority := deltas[a.priority] + 1] else deltas)
  {
    hide Entries, CreatesRecord;
    forall p ensures |OfPriority(d + Entries(db, b, a), p)|
                     == |OfPriority(d, p)| + if CreatesRecord(db, a) && p == a.priority then 1 else 0 {
      EntriesPriority(db, b, d, a, p);
      if CreatesRecord(db, a) { assert RecordKey(a.id) !in OfPriority(d, p); }
    }
    hide OfPriority;
  }

  /** One admission may be appended: everything retained about it agrees and there is room for one more batch. */
  ghost predicate Welcome(cfg: Config, db: Db, a: Admission) {
    Agrees(db, a) && |OriginalSet(db, a.id)| < cfg.maxBatchRefs
  }

  /** One pass of the append loop: the identity checks in source order, then what the admission writes. */
  method AdmitOne(cfg: Config, db: Db, b: bytes, a: Admission, before: Ops, ghost d: Db, ghost start: Db,
                  tally: seq<int>)
    returns (ops: Ops, deltas: seq<int>, live: bool, error: Option<Error>)
    requires Structured(cfg, db) && ValidAdmission(a) && ValidIdentifier(b, MAX_BOUNDARY)
    requires Apply(db, before) == d && EncodableOps(before) && Tallied(start, d, tally)
    requires CreatesRecord(db, a) ==> RecordKey(a.id) !in d
    ensures error.None? <==> Welcome(cfg, db, a)
    ensures error.Some? ==> error.value == DuplicateConflict || error.value == Capacity
    ensures error.None? ==> Apply(db, ops) == d + Entries(db, b, a) && EncodableOps(ops) &&
                            Tallied(start, d + Entries(db, b, a), deltas) && (live <==> BecomesLive(db, a))
  {
    hide Structured, Apply, Tallied, OriginalSet, RefSet, Hex, IdentifierByte;
    ops, deltas, live, error := before, tally, false, None;
    var count, conflict := History(cfg, db, a);
    if conflict { return ops, deltas, live, Some(DuplicateConflict); }
    if count >= cfg.maxBatchRefs { return ops, deltas, live, Some(Capacity); }
    EntriesTally(db, b, d, a, start, tally);
    if HasRecord(db, a.id) {
      var stored := Record(db, a.id);
      if stored.semantic != a.envelope.semantic || stored.priority != a.priority {
        return ops, deltas, live, Some(DuplicateConflict);
      }
      var refs := set k | k in db && k.RefKey? && k.id == a.id;
      RefsFit(cfg, db, a.id, refs);
      if |refs| >= cfg.maxBatchRefs { return ops, deltas, live, Some(Capacity); }
      EntriesOfOne(db, b, a, before, d, RefKey(a.id, b), Empty);
      ops := ops[RefKey(a.id, b) := Some(Empty)];
      live := true;
    } else if QuarantineKey(a.id) in db {
      TombstoneFacts(cfg, db, a.id);
      var metadata := db[QuarantineKey(a.id)].q;
      if metadata.legacy {
        var sealed := Tomb(metadata.(semantic := a.envelope.semantic, priority := a.priority, legacy := false));
        EntriesOfOne(db, b, a, before, d, QuarantineKey(a.id), sealed);
        ops := ops[QuarantineKey(a.id) := Some(sealed)];
      } else {
        if metadata.semantic != a.envelope.semantic || metadata.priority != a.priority {
          return ops, deltas, live, Some(DuplicateConflict);
        }
        assert d + Entries(db, b, a) == d;
      }
    } else {
      var stored := Fresh(a);
      EntriesOfNew(db, b, a, before, d);
      ops := ops[RecordKey(a.id) := Some(Rec(stored))];
      ops := ops[PendingKey(stored.priority, stored.received, a.id) := Some(Empty)];
      ops := ops[RefKey(a.id, b) := Some(Empty)];
      ops := ops[ReserveKey(a.id) := Some(JournalModel.Reserve)];
      deltas := TallyUp(deltas, stored.priority, start, d);
      live := true;
    }
  }

  method TallyUp(deltas: seq<int>, p: nat, ghost start: Db, ghost d: Db) returns (next: seq<int>)
    requires Tallied(start, d, deltas) && p < 4
    ensures p < |deltas| && next == deltas[p := deltas[p] + 1]
  {
    next := deltas[p := deltas[p] + 1];
  }

  lemma RefsFit(cfg: Config, db: Db, id: bytes, refs: set<Key>)
    requires Structured(cfg, db) && refs == set k | k in db && k.RefKey? && k.id == id
    ensures refs == RefSet(db, id) && |refs| <= |OriginalSet(db, id)|
  {
    hide Typed, Indexed, Linked;
    RefsAreOriginals(cfg, db, id);
  }

  lemma TombstoneFacts(cfg: Config, db: Db, id: bytes)
    requires Structured(cfg, db) && QuarantineKey(id) in db
    ensures db[QuarantineKey(id)].Tomb? && !HasRecord(db, id)
  {
    assert Fits(cfg, QuarantineKey(id), db[QuarantineKey(id)]);
  }

  function OriginalEntries(b: bytes, s: seq<Admission>): Db {
    map a | a in s :: OriginalKey(a.id, b) := Empty
  }

  lemma OriginalEntriesSnoc(b: bytes, s: seq<Admission>, i: nat)
    requires i < |s|
    ensures OriginalEntries(b, s[..i + 1]) == OriginalEntries(b, s[..i])[OriginalKey(s[i].id, b) := Empty]
  {
    assert s[..i + 1] == s[..i] + [s[i]];
  }

  lemma NoOriginals(d: Db, b: bytes, s: seq<Admission>)
    ensures d + OriginalEntries(b, s[..0]) == d
  {
  }

  lemma PutAfterUnion(d: Db, m: Db, k: Key, v: Value)
    ensures (d + m)[k := v] == d + m[k := v]
  {
  }

  lemma OriginalEncodable(b: bytes, a: Admission)
    requires ValidIdentifier(b, MAX_BOUNDARY) && ValidAdmission(a)
    ensures Encodable(OriginalKey(a.id, b))
  {
    hide Hex, IdentifierByte;
  }

  method WriteOriginals(db: Db, b: bytes, s: seq<Admission>, before: Ops, ghost d: Db) returns (ops: Ops)
    requires Apply(db, before) == d && EncodableOps(before)
    requires ValidIdentifier(b, MAX_BOUNDARY) && forall i :: 0 <= i < |s| ==> ValidAdmission(s[i])
    ensures Apply(db, ops) == d + OriginalEntries(b, s) && EncodableOps(ops)
  {
    hide Apply, ValidIdentifier, ValidAdmission, OriginalEntries, Encodable;
    ops := before;
    NoOriginals(d, b, s);
    for i := 0 to |s|
      invariant EncodableOps(ops) && Apply(db, ops) == d + OriginalEntries(b, s[..i])
    {
      var k := OriginalKey(s[i].id, b);
      ApplyOne(db, ops, k, Some(Empty));
      OriginalEntriesSnoc(b, s, i);
      OriginalEncodable(b, s[i]);
      PutAfterUnion(d, OriginalEntries(b, s[..i]), k, Empty);
      ops := ops[k := Some(Empty)];
    }
    assert s[..|s|] == s;
  }

  lemma BatchWritten(db: Db, b: bytes, s: seq<Admission>, ops: Ops, live: seq<bytes>)
    requires live == LiveIds(db, s) != [] && Apply(db, ops) == db + AllEntries(db, b, s) + OriginalEntries(b, s)
    ensures Apply(db, ops[BatchKey(b) := Some(Bat(Batch(Members(s), live)))]) == Append(db, b, s)
  {
    hide Apply, AllEntries, LiveIds, Members, OriginalEntries;
    ApplyOne(db, ops, BatchKey(b), Some(Bat(Batch(Members(s), live))));
    BatchEntriesAre(db, b, s);
  }

  lemma NoBatchWritten(db: Db, b: bytes, s: seq<Admission>)
    requires LiveIds(db, s) == []
    ensures Append(db, b, s) == db + AllEntries(db, b, s)
  {
    hide AllEntries, LiveIds;
    BatchEntriesAre(db, b, s);
  }

  /** The rest of the batch: original references and the batch record, when anything is live. */
  method WriteBatch(db: Db, b: bytes, s: seq<Admission>, live: seq<bytes>, before: Ops) returns (ops: Ops)
    requires Apply(db, before) == db + AllEntries(db, b, s) && live == LiveIds(db, s) && EncodableOps(before)
    requires ValidIdentifier(b, MAX_BOUNDARY) && forall i :: 0 <= i < |s| ==> ValidAdmission(s[i])
    ensures Apply(db, ops) == Append(db, b, s) && EncodableOps(ops)
  {
    hide Apply, AllEntries, LiveIds, Hex, IdentifierByte, Members, OriginalEntries, ValidAdmission, Append;
    ops := before;
    if |live| > 0 {
      ops := WriteOriginals(db, b, s, ops, db + AllEntries(db, b, s));
      BatchWritten(db, b, s, ops, live);
      ops := ops[BatchKey(b) := Some(Bat(Batch(Members(s), live)))];
    } else {
      NoBatchWritten(db, b, s);
    }
  }

  lemma BatchEntriesAre(db: Db, b: bytes, s: seq<Admission>)
    ensures LiveIds(db, s) != [] ==>
              BatchEntries(db, b, s) == OriginalEntries(b, s)[BatchKey(b) := Bat(Batch(Members(s), LiveIds(db, s)))]
    ensures LiveIds(db, s) == [] ==> BatchEntries(db, b, s) == map[]
  {
  }

  /** The whole loop over the prepared admissions. */
  method AdmitAll(cfg: Config, db: Db, b: bytes, s: seq<Admission>)
    returns (ops: Ops, deltas: seq<int>, error: Option<Error>)
    requires Structured(cfg, db) && ValidIdentifier(b, MAX_BOUNDARY) && BatchKey(b) !in db && |s| <= MAX_APPEND
    requires forall i :: 0 <= i < |s| ==> ValidAdmission(s[i])
    requires forall i, j :: 0 <= i < j < |s| ==> Less(s[i].id, s[j].id)
    ensures error.None? <==> Admissible(cfg, db, b, s)
    ensures error.Some? ==> error.value == DuplicateConflict || error.value == Capacity
    ensures error.None? ==>
              Apply(db, ops) == Append(db, b, s) && EncodableOps(ops) && Tallied(db, Append(db, b, s), deltas)
  {
    hide Structured, Apply, AllEntries, Entries, LiveIds, BecomesLive, Tallied, ValidAdmission, ValidIdentifier, Less,
         Welcome, EncodableOps, Admissible, Append;
    ops, deltas, error := map[], [0, 0, 0, 0], None;
    var live: seq<bytes> := [];
    NothingAdmitted(db, b, s);
    for i := 0 to |s|
      invariant error.None? && EncodableOps(ops) && live == LiveIds(db, s[..i])
      invariant Apply(db, ops) == db + AllEntries(db, b, s[..i]) && Tallied(db, db + AllEntries(db, b, s[..i]), deltas)
      invariant forall j :: 0 <= j < i ==> Welcome(cfg, db, s[j])
    {
      if !HasRecord(db, s[i].id) { NotWrittenYet(cfg, db, b, s, i); }
      var isLive, failed;
      ops, deltas, isLive, failed := AdmitOne(cfg, db, b, s[i], ops, db + AllEntries(db, b, s[..i]), db, deltas);
      if failed.Some? {
        NotAdmissible(cfg, db, b, s, i);
        return ops, deltas, failed;
      }
      AllEntriesSnoc(db, b, s, i);
      assert db + AllEntries(db, b, s[..i]) + Entries(db, b, s[i]) == db + AllEntries(db, b, s[..i + 1]);
      if isLive { live := live + [s[i].id]; }
    }
    assert s[..|s|] == s;
    WelcomeIsAdmissible(cfg, db, b, s);
    BatchTally(db, b, s, deltas);
    ops := WriteBatch(db, b, s, live, ops);
  }

  lemma WelcomeIsAdmissible(cfg: Config, db: Db, b: bytes, s: seq<Admission>)
    requires ValidIdentifier(b, MAX_BOUNDARY) && BatchKey(b) !in db && |s| <= MAX_APPEND
    requires forall i, j :: 0 <= i < j < |s| ==> Less(s[i].id, s[j].id)
    requires forall i :: 0 <= i < |s| ==> ValidAdmission(s[i]) && Welcome(cfg, db, s[i])
    ensures Admissible(cfg, db, b, s)
  {
    hide Less, ValidAdmission, Agrees, OriginalSet, ValidIdentifier;
  }

  lemma NotAdmissible(cfg: Config, db: Db, b: bytes, s: seq<Admission>, i: nat)
    requires i < |s| && !Welcome(cfg, db, s[i])
    ensures !Admissible(cfg, db, b, s)
  {
    hide Less, ValidAdmission, Agrees, OriginalSet, ValidIdentifier;
  }

  lemma NothingAdmitted(db: Db, b: bytes, s: seq<Admission>)
    ensures Apply(db, map[]) == db + AllEntries(db, b, s[..0]) && LiveIds(db, s[..0]) == []
    ensures Tallied(db, db + AllEntries(db, b, s[..0]), [0, 0, 0, 0]) && EncodableOps(map[])
  {
    ApplyNothing(db);
    assert db + map[] == db;
  }

  lemma BatchTally(db: Db, b: bytes, s: seq<Admission>, deltas: seq<int>)
    requires Tallied(db, db + AllEntries(db, b, s), deltas)
    ensures Tallied(db, Append(db, b, s), deltas)
  {
    hide AllEntries, LiveIds, Members;
    forall p ensures OfPriority(Append(db, b, s), p) == OfPriority(db + AllEntries(db, b, s), p) {
      forall k ensures k in OfPriority(Append(db, b, s), p) <==> k in OfPriority(db + AllEntries(db, b, s), p) {
      }
    }
  }
}
