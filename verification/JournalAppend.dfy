/** Appending a batch keeps the structural half of the verify invariant. */
module JournalAppend {
  import opened Basics
  import opened JournalKeys
  import opened JournalModel
  import opened JournalInvariant

  /** What AppendBatch has checked once it starts to write. */
  ghost predicate Admissible(cfg: Config, db: Db, b: bytes, s: seq<Admission>) {
    && ValidIdentifier(b, MAX_BOUNDARY) && BatchKey(b) !in db && |s| <= MAX_APPEND
    && (forall i, j :: 0 <= i < j < |s| ==> Less(s[i].id, s[j].id))
    && (forall i :: 0 <= i < |s| ==>
          ValidAdmission(s[i]) && Agrees(db, s[i]) && |OriginalSet(db, s[i].id)| < cfg.maxBatchRefs)
  }

  lemma DistinctIds(cfg: Config, db: Db, b: bytes, s: seq<Admission>, i: nat, j: nat)
    requires Admissible(cfg, db, b, s) && i < |s| && j < |s| && s[i].id == s[j].id
    ensures i == j
  {
    LessIrreflexive(s[i].id);
  }

  // ---------------------------------------------------------------- what one admission writes

  lemma EntriesCarryTheId(db: Db, b: bytes, a: Admission, k: Key)
    requires k in Entries(db, b, a)
    ensures !k.BatchKey? && !k.OriginalKey? && k.id == a.id
  {
  }

  /** Only a tombstone is ever overwritten. */
  lemma EntriesAreNew(cfg: Config, db: Db, b: bytes, a: Admission, k: Key)
    requires Structured(cfg, db) && BatchKey(b) !in db && k in Entries(db, b, a) && !k.QuarantineKey?
    ensures k !in db
  {
    hide WellBatched, MemberLinked, RefSet, OriginalSet, WellStored;
    if RecordKey(a.id) in db { assert Fits(cfg, RecordKey(a.id), db[RecordKey(a.id)]); }
    assert k in db && IsIndex(k) ==> HasRecord(db, a.id);
  }

  lemma {:induction false} AllEntriesFrom(db: Db, b: bytes, s: seq<Admission>, k: Key) returns (i: nat)
    requires k in AllEntries(db, b, s)
    ensures i < |s| && k in Entries(db, b, s[i]) && AllEntries(db, b, s)[k] == Entries(db, b, s[i])[k]
  {
    hide Entries;
    i := |s| - 1;
    if k !in Entries(db, b, s[i]) { i := AllEntriesFrom(db, b, s[..i], k); }
  }

  lemma {:induction false} AllEntriesHold(cfg: Config, db: Db, b: bytes, s: seq<Admission>, i: nat, k: Key)
    requires forall x, y :: 0 <= x < y < |s| ==> s[x].id != s[y].id
    requires i < |s| && k in Entries(db, b, s[i])
    ensures k in AllEntries(db, b, s) && AllEntries(db, b, s)[k] == Entries(db, b, s[i])[k]
  {
    hide Entries;
    var n := |s| - 1;
    EntriesCarryTheId(db, b, s[i], k);
    if i < n {
      AllEntriesHold(cfg, db, b, s[..n], i, k);
      if k in Entries(db, b, s[n]) { EntriesCarryTheId(db, b, s[n], k); }
    }
  }

  lemma {:induction false} LiveIdsMembers(db: Db, s: seq<Admission>)
    ensures forall i :: 0 <= i < |s| && BecomesLive(db, s[i]) ==> s[i].id in LiveIds(db, s)
    ensures forall x :: x in LiveIds(db, s) ==> exists i :: 0 <= i < |s| && s[i].id == x && BecomesLive(db, s[i])
  {
    hide BecomesLive;
    if s != [] {
      var n := |s| - 1;
      LiveIdsMembers(db, s[..n]);
      forall x | x in LiveIds(db, s) ensures exists i :: 0 <= i < |s| && s[i].id == x && BecomesLive(db, s[i]) {
        if x in LiveIds(db, s[..n]) {
          var i :| 0 <= i < n && s[..n][i].id == x && BecomesLive(db, s[..n][i]);
          assert s[i].id == x && BecomesLive(db, s[i]);
        }
      }
      forall i | 0 <= i < |s| && BecomesLive(db, s[i]) ensures s[i].id in LiveIds(db, s) {
        if i < n { assert s[..n][i] == s[i]; }
      }
    }
  }

  lemma {:induction false} LiveIdsFewer(db: Db, s: seq<Admission>)
    ensures |LiveIds(db, s)| <= |s|
  {
    hide BecomesLive;
    if s != [] { LiveIdsFewer(db, s[..|s| - 1]); }
  }

  lemma {:induction false} LiveIdsAscend(db: Db, s: seq<Admission>)
    requires forall i, j :: 0 <= i < j < |s| ==> Less(s[i].id, s[j].id)
    ensures Ascending(LiveIds(db, s))
  {
    hide Less, BecomesLive;
    if s != [] {
      var n := |s| - 1;
      LiveIdsAscend(db, s[..n]);
      LiveIdsMembers(db, s[..n]);
      forall i | 0 <= i < |LiveIds(db, s[..n])| ensures Less(LiveIds(db, s[..n])[i], s[n].id) {
        var x := LiveIds(db, s[..n])[i];
        assert x in LiveIds(db, s[..n]);
        var j :| 0 <= j < n && s[..n][j].id == x;
      }
    }
  }

  // ---------------------------------------------------------------- what the journal holds afterwards

  lemma AppendKeeps(cfg: Config, db: Db, b: bytes, s: seq<Admission>, k: Key)
    requires Structured(cfg, db) && Admissible(cfg, db, b, s) && k in db && !k.QuarantineKey?
    ensures k in Append(db, b, s) && Append(db, b, s)[k] == db[k]
  {
    if k in AllEntries(db, b, s) {
      var i := AllEntriesFrom(db, b, s, k);
      EntriesAreNew(cfg, db, b, s[i], k);
    }
    if k.OriginalKey? { assert HasBatch(db, k.batch); }
    hide AllEntries, LiveIds, Admissible, Structured;
  }

  lemma AppendHolds(cfg: Config, db: Db, b: bytes, s: seq<Admission>, i: nat, k: Key)
    requires Admissible(cfg, db, b, s) && i < |s| && k in Entries(db, b, s[i])
    ensures k in Append(db, b, s) && Append(db, b, s)[k] == Entries(db, b, s[i])[k]
  {
    hide Entries, AllEntries, Less, Agrees, ValidAdmission;
    EntriesCarryTheId(db, b, s[i], k);
    forall x, y | 0 <= x < y < |s| ensures s[x].id != s[y].id { LessIrreflexive(s[x].id); }
    AllEntriesHold(cfg, db, b, s, i, k);
  }

  /** Where a key of the new state comes from. */
  datatype Origin = Old | Admitted(i: nat) | TheBatch | Original(j: nat)

  ghost predicate Explains(db: Db, b: bytes, s: seq<Admission>, k: Key, o: Origin)
    requires k in Append(db, b, s)
  {
    var v := Append(db, b, s)[k];
    match o
    case Old => k in db && v == db[k]
    case Admitted(i) => i < |s| && k in Entries(db, b, s[i]) && v == Entries(db, b, s[i])[k]
    case TheBatch => LiveIds(db, s) != [] && k == BatchKey(b) && v == Bat(Batch(Members(s), LiveIds(db, s)))
    case Original(j) => LiveIds(db, s) != [] && j < |s| && k == OriginalKey(s[j].id, b) && v == Empty
  }

  lemma BatchEntriesFrom(db: Db, b: bytes, s: seq<Admission>, k: Key) returns (o: Origin)
    requires k in BatchEntries(db, b, s)
    ensures Explains(db, b, s, k, o) && !o.Old? && !o.Admitted?
  {
    hide Entries, AllEntries, LiveIds, Members;
    if k == BatchKey(b) { o := TheBatch; } else {
      var a :| a in s && k == OriginalKey(a.id, b);
      var j :| 0 <= j < |s| && s[j] == a;
      o := Original(j);
    }
  }

  lemma AppendFrom(db: Db, b: bytes, s: seq<Admission>, k: Key) returns (o: Origin)
    requires k in Append(db, b, s)
    ensures Explains(db, b, s, k, o)
  {
    hide Entries, AllEntries, LiveIds, Members, BatchEntries;
    if k in BatchEntries(db, b, s) {
      o := BatchEntriesFrom(db, b, s, k);
    } else if k in AllEntries(db, b, s) {
      var i := AllEntriesFrom(db, b, s, k);
      o := Admitted(i);
    } else {
      o := Old;
    }
  }

  /** The record an identity has afterwards: its old one, or a fresh one unless it is quarantined. */
  lemma AppendRecord(cfg: Config, db: Db, b: bytes, s: seq<Admission>, x: bytes)
    requires Structured(cfg, db) && Admissible(cfg, db, b, s)
    ensures HasRecord(db, x) ==> HasRecord(Append(db, b, s), x) && Record(Append(db, b, s), x) == Record(db, x)
    ensures HasRecord(Append(db, b, s), x) && !HasRecord(db, x) ==>
              exists i :: 0 <= i < |s| && s[i].id == x && QuarantineKey(x) !in db && Record(Append(db, b, s), x) == Fresh(s[i])
  {
    hide Structured, Admissible, Append;
    if HasRecord(db, x) {
      AppendKeeps(cfg, db, b, s, RecordKey(x));
    } else if HasRecord(Append(db, b, s), x) {
      var o := AppendFrom(db, b, s, RecordKey(x));
    }
  }

  lemma AppendAdmits(cfg: Config, db: Db, b: bytes, s: seq<Admission>, i: nat)
    requires Structured(cfg, db) && Admissible(cfg, db, b, s) && i < |s| && BecomesLive(db, s[i])
    ensures HasRecord(Append(db, b, s), s[i].id) && RefKey(s[i].id, b) in Append(db, b, s)
    ensures !HasRecord(db, s[i].id) ==> Record(Append(db, b, s), s[i].id) == Fresh(s[i])
    ensures !HasRecord(db, s[i].id) ==> IndexOf(s[i].id, Fresh(s[i])) in Append(db, b, s)
    ensures !HasRecord(db, s[i].id) ==> ReserveKey(s[i].id) in Append(db, b, s)
  {
    hide Structured, Admissible, Append;
    var a := s[i];
    AppendHolds(cfg, db, b, s, i, RefKey(a.id, b));
    if HasRecord(db, a.id) {
      AppendKeeps(cfg, db, b, s, RecordKey(a.id));
    } else {
      AppendHolds(cfg, db, b, s, i, RecordKey(a.id));
      AppendHolds(cfg, db, b, s, i, IndexOf(a.id, Fresh(a)));
      AppendHolds(cfg, db, b, s, i, ReserveKey(a.id));
    }
  }

  lemma AppendTyped(cfg: Config, db: Db, b: bytes, s: seq<Admission>)
    requires Structured(cfg, db) && Admissible(cfg, db, b, s)
    ensures Typed(cfg, Append(db, b, s))
  {
    forall k | k in Append(db, b, s) ensures Fits(cfg, k, Append(db, b, s)[k]) {
      var o := AppendFrom(db, b, s, k);
      hide Append, Indexed, Linked, LiveIds;
      if o.Admitted? { AdmittedFits(cfg, db, b, s[o.i], k); }
    }
  }

  lemma AdmittedFits(cfg: Config, db: Db, b: bytes, a: Admission, k: Key)
    requires Typed(cfg, db) && ValidAdmission(a) && k in Entries(db, b, a)
    ensures Fits(cfg, k, Entries(db, b, a)[k])
  {
    if QuarantineKey(a.id) in db { assert Fits(cfg, QuarantineKey(a.id), db[QuarantineKey(a.id)]); }
  }

  // ---------------------------------------------------------------- indexes

  lemma AppendIndexes(cfg: Config, db: Db, b: bytes, s: seq<Admission>, x: bytes)
    requires Structured(cfg, db) && Admissible(cfg, db, b, s)
    ensures var db' := Append(db, b, s);
            HasRecord(db', x) ==>
              IndexOf(x, Record(db', x)) in db' && (Record(db', x).state.Pending? ==> ReserveKey(x) in db')
  {
    hide Append, Typed, Linked, Admissible, LiveIds;
    var db' := Append(db, b, s);
    AppendRecord(cfg, db, b, s, x);
    if HasRecord(db, x) {
      AppendKeeps(cfg, db, b, s, IndexOf(x, Record(db, x)));
      if ReserveKey(x) in db { AppendKeeps(cfg, db, b, s, ReserveKey(x)); }
    } else if HasRecord(db', x) {
      var i :| 0 <= i < |s| && s[i].id == x && QuarantineKey(x) !in db && Record(db', x) == Fresh(s[i]);
      AppendAdmits(cfg, db, b, s, i);
    }
  }

  lemma AppendReserves(cfg: Config, db: Db, b: bytes, s: seq<Admission>, x: bytes)
    requires Structured(cfg, db) && Admissible(cfg, db, b, s)
    ensures var db' := Append(db, b, s);
            && (ReserveKey(x) in db' ==> HasRecord(db', x) && Record(db', x).state.Pending?)
            && (QuarantineKey(x) in db' ==> !HasRecord(db', x))
  {
    hide Append, Typed, Linked, Admissible, LiveIds;
    var db' := Append(db, b, s);
    AppendRecord(cfg, db, b, s, x);
    if ReserveKey(x) in db' {
      var o := AppendFrom(db, b, s, ReserveKey(x));
      if o.Admitted? { AppendAdmits(cfg, db, b, s, o.i); }
    }
    if QuarantineKey(x) in db' { var o := AppendFrom(db, b, s, QuarantineKey(x)); }
  }

  lemma AppendNamesRecords(cfg: Config, db: Db, b: bytes, s: seq<Admission>, k: Key)
    requires Structured(cfg, db) && Admissible(cfg, db, b, s) && k in Append(db, b, s) && IsIndex(k)
    ensures HasRecord(Append(db, b, s), k.id) && IndexOf(k.id, Record(Append(db, b, s), k.id)) == k
  {
    hide Append, Typed, Linked, Admissible, LiveIds;
    AppendRecord(cfg, db, b, s, k.id);
    var o := AppendFrom(db, b, s, k);
    if o.Admitted? { AppendAdmits(cfg, db, b, s, o.i); }
  }

  lemma AppendIndexedAt(cfg: Config, db: Db, b: bytes, s: seq<Admission>, x: bytes, k: Key)
    requires Structured(cfg, db) && Admissible(cfg, db, b, s)
    ensures var db' := Append(db, b, s);
            && (HasRecord(db', x) ==> IndexOf(x, Record(db', x)) in db')
            && (k in db' && IsIndex(k) ==> HasRecord(db', k.id) && IndexOf(k.id, Record(db', k.id)) == k)
            && (ReserveKey(x) in db' <==> HasRecord(db', x) && Record(db', x).state.Pending?)
            && (QuarantineKey(x) in db' ==> !HasRecord(db', x))
  {
    hide Append, Structured, Admissible, HasRecord, Record, IndexOf, IsIndex;
    AppendIndexes(cfg, db, b, s, x);
    AppendReserves(cfg, db, b, s, x);
    if k in Append(db, b, s) && IsIndex(k) { AppendNamesRecords(cfg, db, b, s, k); }
  }

  lemma AppendIndexed(cfg: Config, db: Db, b: bytes, s: seq<Admission>)
    requires Structured(cfg, db) && Admissible(cfg, db, b, s)
    ensures Indexed(Append(db, b, s))
  {
    hide Append, Structured, Admissible, IndexOf, HasRecord, Record;
    var db' := Append(db, b, s);
    forall x ensures HasRecord(db', x) ==> IndexOf(x, Record(db', x)) in db'
             ensures ReserveKey(x) in db' <==> HasRecord(db', x) && Record(db', x).state.Pending?
             ensures QuarantineKey(x) in db' ==> !HasRecord(db', x) { AppendIndexedAt(cfg, db, b, s, x, RecordKey(x)); }
    forall k | k in db' && IsIndex(k) ensures HasRecord(db', k.id) && IndexOf(k.id, Record(db', k.id)) == k {
      AppendIndexedAt(cfg, db, b, s, k.id, k);
    }
  }

  // ---------------------------------------------------------------- links

  lemma AppendWritesTheBatch(db: Db, b: bytes, s: seq<Admission>)
    requires LiveIds(db, s) != []
    ensures HasBatch(Append(db, b, s), b) && BatchOf(Append(db, b, s), b) == Batch(Members(s), LiveIds(db, s))
    ensures forall i :: 0 <= i < |s| ==> OriginalKey(s[i].id, b) in Append(db, b, s)
  {
    hide AllEntries, LiveIds, Members;
    assert BatchKey(b) in BatchEntries(db, b, s);
    forall i | 0 <= i < |s| ensures OriginalKey(s[i].id, b) in BatchEntries(db, b, s) { assert s[i] in s; }
  }

  lemma AppendNoOtherBatch(db: Db, b: bytes, s: seq<Admission>, c: bytes)
    requires HasBatch(Append(db, b, s), c)
    ensures HasBatch(db, c) || (c == b && LiveIds(db, s) != [])
  {
    hide LiveIds, Append, Entries;
    var o := AppendFrom(db, b, s, BatchKey(c));
    if o.Admitted? { EntriesCarryTheId(db, b, s[o.i], BatchKey(c)); }
  }

  lemma AppendBatches(cfg: Config, db: Db, b: bytes, s: seq<Admission>, c: bytes)
    requires Structured(cfg, db) && Admissible(cfg, db, b, s)
    ensures HasBatch(Append(db, b, s), c) <==> HasBatch(db, c) || (c == b && LiveIds(db, s) != [])
    ensures HasBatch(db, c) ==> c != b && BatchOf(Append(db, b, s), c) == BatchOf(db, c)
  {
    hide LiveIds, Structured, Append, Less, Agrees, ValidAdmission, OriginalSet;
    if HasBatch(db, c) { AppendKeeps(cfg, db, b, s, BatchKey(c)); }
    if HasBatch(Append(db, b, s), c) { AppendNoOtherBatch(db, b, s, c); }
    if LiveIds(db, s) != [] { AppendWritesTheBatch(db, b, s); }
  }

  lemma MembersWell(s: seq<Admission>)
    requires forall i :: 0 <= i < |s| ==> ValidAdmission(s[i])
    requires forall i, j :: 0 <= i < j < |s| ==> Less(s[i].id, s[j].id)
    ensures MembersAscending(Members(s))
    ensures forall m :: m in Members(s) ==> ValidId(m.id) && m.priority < 4 && |m.semantic| == DIGEST_BYTES
  {
    hide Less, ValidId;
  }

  lemma LiveIsOriginal(db: Db, s: seq<Admission>, x: bytes)
    requires x in LiveIds(db, s)
    ensures exists m :: m in Members(s) && m.id == x
  {
    LiveIdsMembers(db, s);
    hide LiveIds, BecomesLive;
    var i :| 0 <= i < |s| && s[i].id == x && BecomesLive(db, s[i]);
    assert Members(s)[i] in Members(s);
  }

  lemma NewBatchWell(cfg: Config, db: Db, b: bytes, s: seq<Admission>)
    requires Admissible(cfg, db, b, s) && LiveIds(db, s) != []
    ensures WellBatched(Batch(Members(s), LiveIds(db, s)))
  {
    hide Less, Agrees, ValidAdmission, LiveIds, Members, ValidId, Ascending, MembersAscending, OriginalSet;
    LiveIdsAscend(db, s);
    LiveIdsFewer(db, s);
    MembersWell(s);
    assert |Members(s)| == |s|;
    forall x | x in LiveIds(db, s) ensures exists m :: m in Members(s) && m.id == x { LiveIsOriginal(db, s, x); }
  }

  lemma NewMemberLinked(cfg: Config, db: Db, b: bytes, s: seq<Admission>, i: nat)
    requires Structured(cfg, db) && Admissible(cfg, db, b, s) && LiveIds(db, s) != [] && i < |s|
    requires HasBatch(Append(db, b, s), b)
    ensures MemberLinked(Append(db, b, s), b, Member(s[i].id, s[i].priority, s[i].envelope.semantic))
  {
    hide Append, Structured, LiveIds;
    var a := s[i];
    AppendWritesTheBatch(db, b, s);
    AppendRecord(cfg, db, b, s, a.id);
    LiveIdsMembers(db, s);
    assert Agrees(db, a);
    forall j | 0 <= j < |s| && s[j].id == a.id ensures j == i { DistinctIds(cfg, db, b, s, i, j); }
    hide Agrees, Admissible;
    if a.id in LiveIds(db, s) {
      assert BecomesLive(db, a);
      AppendAdmits(cfg, db, b, s, i);
    }
  }

  lemma OldMemberLinked(cfg: Config, db: Db, b: bytes, s: seq<Admission>, c: bytes, m: Member)
    requires Structured(cfg, db) && Admissible(cfg, db, b, s) && HasBatch(db, c) && m in BatchOf(db, c).original
    requires HasBatch(Append(db, b, s), c)
    ensures MemberLinked(Append(db, b, s), c, m)
  {
    assert MemberLinked(db, c, m);
    hide Append, Structured;
    AppendBatches(cfg, db, b, s, c);
    AppendRecord(cfg, db, b, s, m.id);
    AppendKeeps(cfg, db, b, s, OriginalKey(m.id, c));
    if m.id in BatchOf(db, c).live { AppendKeeps(cfg, db, b, s, RefKey(m.id, c)); }
    if HasRecord(Append(db, b, s), m.id) && !HasRecord(db, m.id) {
      var i :| 0 <= i < |s| && s[i].id == m.id && Record(Append(db, b, s), m.id) == Fresh(s[i]);
      assert Agrees(db, s[i]);
    }
  }

  lemma AppendReferences(cfg: Config, db: Db, b: bytes, s: seq<Admission>, x: bytes, c: bytes)
    requires Structured(cfg, db) && Admissible(cfg, db, b, s)
    ensures RefKey(x, c) in Append(db, b, s) ==> HasBatch(Append(db, b, s), c) && x in BatchOf(Append(db, b, s), c).live
    ensures OriginalKey(x, c) in Append(db, b, s) ==>
              HasBatch(Append(db, b, s), c) && exists m :: m in BatchOf(Append(db, b, s), c).original && m.id == x
  {
    hide Append, Typed, Indexed, WellBatched, MemberLinked, RefSet, OriginalSet, Admissible, LiveIds;
    AppendBatches(cfg, db, b, s, c);
    LiveIdsMembers(db, s);
    if LiveIds(db, s) != [] { AppendWritesTheBatch(db, b, s); }
    if RefKey(x, c) in Append(db, b, s) {
      var o := AppendFrom(db, b, s, RefKey(x, c));
      if o.Admitted? { assert BecomesLive(db, s[o.i]); }
    }
    if OriginalKey(x, c) in Append(db, b, s) {
      var o := AppendFrom(db, b, s, OriginalKey(x, c));
      if o.Original? { assert Members(s)[o.j] in Members(s) && Members(s)[o.j].id == x; }
      if o.Admitted? { EntriesCarryTheId(db, b, s[o.i], OriginalKey(x, c)); }
    }
  }

  /** Every live reference has its original reference, so there are never more of them. */
  lemma RefsAreOriginals(cfg: Config, db: Db, x: bytes)
    requires Linked(cfg, db)
    ensures |RefSet(db, x)| <= |OriginalSet(db, x)|
  {
    var image := set k | k in RefSet(db, x) :: OriginalKey(k.id, k.batch);
    ImageSize(RefSet(db, x), image, x);
    forall k | k in image ensures k in OriginalSet(db, x) {
      var r :| r in RefSet(db, x) && k == OriginalKey(r.id, r.batch);
      assert RefKey(x, r.batch) in db;
      assert WellBatched(BatchOf(db, r.batch));
      var m :| m in BatchOf(db, r.batch).original && m.id == x;
      assert MemberLinked(db, r.batch, m);
    }
    Subset(image, OriginalSet(db, x));
  }

  lemma {:induction false} ImageSize(refs: set<Key>, image: set<Key>, x: bytes)
    requires forall k :: k in refs ==> k.RefKey? && k.id == x
    requires image == set k | k in refs :: OriginalKey(k.id, k.batch)
    ensures |image| == |refs|
    decreases refs
  {
    if refs != {} {
      var r :| r in refs;
      var o := OriginalKey(r.id, r.batch);
      ImageSize(refs - {r}, image - {o}, x);
      assert image == (image - {o}) + {o};
    }
  }

  ghost predicate Admits(s: seq<Admission>, x: bytes) {
    exists i :: 0 <= i < |s| && s[i].id == x
  }

  lemma NewReferences(db: Db, b: bytes, s: seq<Admission>, x: bytes)
    ensures RefSet(Append(db, b, s), x) <= RefSet(db, x) + if Admits(s, x) then {RefKey(x, b)} else {}
    ensures OriginalSet(Append(db, b, s), x) <= OriginalSet(db, x) + if Admits(s, x) then {OriginalKey(x, b)} else {}
  {
    hide Append, LiveIds;
    var db' := Append(db, b, s);
    forall k | k in RefSet(db', x) ensures k in RefSet(db, x) + if Admits(s, x) then {RefKey(x, b)} else {} {
      var o := AppendFrom(db, b, s, k);
    }
    forall k | k in OriginalSet(db', x)
      ensures k in OriginalSet(db, x) + if Admits(s, x) then {OriginalKey(x, b)} else {}
    {
      var o := AppendFrom(db, b, s, k);
    }
  }

  lemma AppendNeverOverfills(cfg: Config, db: Db, b: bytes, s: seq<Admission>, x: bytes)
    requires Structured(cfg, db) && Admissible(cfg, db, b, s)
    ensures |OriginalSet(Append(db, b, s), x)| <= cfg.maxBatchRefs
    ensures HasRecord(Append(db, b, s), x) ==> |RefSet(Append(db, b, s), x)| <= cfg.maxBatchRefs
  {
    hide Append, Typed, Indexed, WellBatched, MemberLinked, Agrees, Less, ValidAdmission, RefSet, OriginalSet;
    var db' := Append(db, b, s);
    NewReferences(db, b, s, x);
    RefsAreOriginals(cfg, db, x);
    Subset(RefSet(db', x), RefSet(db, x) + if Admits(s, x) then {RefKey(x, b)} else {});
    Subset(OriginalSet(db', x), OriginalSet(db, x) + if Admits(s, x) then {OriginalKey(x, b)} else {});
  }

  lemma AppendReferencesEveryRecord(cfg: Config, db: Db, b: bytes, s: seq<Admission>, x: bytes)
    requires Structured(cfg, db) && Admissible(cfg, db, b, s) && HasRecord(Append(db, b, s), x)
    ensures 0 < |RefSet(Append(db, b, s), x)|
  {
    hide Append, Typed, Indexed, WellBatched, MemberLinked, Admissible;
    var db' := Append(db, b, s);
    AppendRecord(cfg, db, b, s, x);
    if HasRecord(db, x) {
      forall k | k in RefSet(db, x) ensures k in RefSet(db', x) { AppendKeeps(cfg, db, b, s, k); }
      Subset(RefSet(db, x), RefSet(db', x));
    } else {
      var i :| 0 <= i < |s| && s[i].id == x && QuarantineKey(x) !in db;
      AppendAdmits(cfg, db, b, s, i);
      Subset({RefKey(x, b)}, RefSet(db', x));
    }
  }

  lemma AppendMembersLinked(cfg: Config, db: Db, b: bytes, s: seq<Admission>, c: bytes)
    requires Structured(cfg, db) && Admissible(cfg, db, b, s) && HasBatch(Append(db, b, s), c)
    ensures WellBatched(BatchOf(Append(db, b, s), c))
    ensures forall m :: m in BatchOf(Append(db, b, s), c).original ==> MemberLinked(Append(db, b, s), c, m)
  {
    hide Append, Admissible, Typed, Indexed, WellBatched, MemberLinked, RefSet, OriginalSet, LiveIds;
    AppendBatches(cfg, db, b, s, c);
    if HasBatch(db, c) {
      forall m | m in BatchOf(db, c).original
        ensures MemberLinked(Append(db, b, s), c, m)
      {
        OldMemberLinked(cfg, db, b, s, c, m);
      }
    } else {
      AppendWritesTheBatch(db, b, s);
      NewBatchWell(cfg, db, b, s);
      forall m | m in Members(s) ensures MemberLinked(Append(db, b, s), c, m) {
        var i :| 0 <= i < |s| && Members(s)[i] == m;
        NewMemberLinked(cfg, db, b, s, i);
      }
    }
  }

  lemma AppendLinked(cfg: Config, db: Db, b: bytes, s: seq<Admission>)
    requires Structured(cfg, db) && Admissible(cfg, db, b, s)
    ensures Linked(cfg, Append(db, b, s))
  {
    hide Append, Admissible, Structured, WellBatched, MemberLinked, RefSet, OriginalSet, HasRecord, HasBatch, BatchOf;
    var db' := Append(db, b, s);
    forall c | HasBatch(db', c) ensures WellBatched(BatchOf(db', c)) { AppendMembersLinked(cfg, db, b, s, c); }
    forall c, m | HasBatch(db', c) && m in BatchOf(db', c).original ensures MemberLinked(db', c, m) {
      AppendMembersLinked(cfg, db, b, s, c);
    }
    forall x, c | RefKey(x, c) in db'
      ensures HasBatch(db', c) && x in BatchOf(db', c).live
    {
      AppendReferences(cfg, db, b, s, x, c);
    }
    forall x, c | OriginalKey(x, c) in db'
      ensures HasBatch(db', c) && exists m :: m in BatchOf(db', c).original && m.id == x
    {
      AppendReferences(cfg, db, b, s, x, c);
    }
    forall x | HasRecord(db', x) ensures 0 < |RefSet(db', x)| <= cfg.maxBatchRefs {
      AppendNeverOverfills(cfg, db, b, s, x);
      AppendReferencesEveryRecord(cfg, db, b, s, x);
    }
    forall x ensures |OriginalSet(db', x)| <= cfg.maxBatchRefs { AppendNeverOverfills(cfg, db, b, s, x); }
  }

  /** Appending admissible records to a verified journal leaves it verified. */
  lemma AppendStructured(cfg: Config, db: Db, b: bytes, s: seq<Admission>)
    requires Structured(cfg, db) && Admissible(cfg, db, b, s)
    ensures Structured(cfg, Append(db, b, s))
  {
    AppendTyped(cfg, db, b, s);
    AppendIndexed(cfg, db, b, s);
    AppendLinked(cfg, db, b, s);
  }
}
