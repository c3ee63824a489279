/** The startup scan over byte keys: what it collects, and which stores it accepts beyond those the journal writes. */
module JournalScan {
  import opened Basics
  import opened Encoding
  import opened JournalKeys
  import opened JournalModel
  import opened JournalVerify
  import opened JournalEvents
  import opened JournalRestart

  /** A store by the bytes of its keys, the manifest aside. */
  type Store = map<bytes, Value>

  /** The entry the scan keeps for a key: the last in byte order of those that parse to it. */
  ghost predicate LastOf(store: Store, b: bytes, k: Key) {
    b in store && Parse(b) == Some(k) && forall c :: c in store && c != b && Parse(c) == Some(k) ==> Less(c, b)
  }

  /** The maps verify fills while it scans. */
  ghost predicate Collects(store: Store, db: Db) {
    && (forall b :: b in store ==> Parse(b).Some? && Parse(b).value in db)
    && (forall k :: k in db ==> exists b :: LastOf(store, b, k) && store[b] == db[k])
  }

  /** The namespaces in which a second entry of one key is refused; in the others it replaces the first. */
  predicate OnlyOnce(k: Key) {
    !k.RecordKey? && !k.BatchKey? && !k.RefKey?
  }

  predicate Twins(b: bytes, c: bytes) {
    b != c && Parse(b).Some? && Parse(b) == Parse(c)
  }

  ghost predicate Unrepeated(store: Store) {
    forall b, c {:trigger Twins(b, c)} :: b in store && c in store && Twins(b, c) ==> !OnlyOnce(Parse(b).value)
  }

  /** The index entry of a record is compared as bytes. */
  ghost predicate IndexesExact(store: Store, db: Db) {
    forall id :: HasRecord(db, id) ==> var k := IndexOf(id, Record(db, id)); Encodable(k) && Encode(k) in store
  }

  /** What verify accepts, having collected `db` from the store. */
  ghost predicate ScanAccepts(cfg: Config, store: Store, db: Db) {
    && Collects(store, db) && Unrepeated(store) && IndexesExact(store, db) && VerifyAccepts(cfg, db)
    && forall b :: b in store ==> EntryAccepted(cfg, b, store[b])
  }

  ghost predicate EntryAccepted(cfg: Config, b: bytes, v: Value) {
    Parse(b).Some? && EntryFits(cfg, Parse(b).value, v)
  }

  /** Every key is the bytes the journal would write for it. */
  ghost predicate Canonical(store: Store) {
    forall b :: b in store ==> exists k :: IsBytes(b, k)
  }

  ghost predicate IsBytes(b: bytes, k: Key) {
    Encodable(k) && b == Encode(k)
  }

  /** The store holds exactly the bytes of these entries. */
  ghost predicate Stores(store: Store, db: Db) {
    && (forall k :: k in db ==> Encodable(k) && Encode(k) in store && store[Encode(k)] == db[k])
    && (forall b :: b in store ==> exists k :: k in db && IsBytes(b, k))
  }

  // ---------------------------------------------------------------- what is accepted, exactly

  lemma IsBytesParses(b: bytes, k: Key)
    requires IsBytes(b, k)
    ensures Parse(b) == Some(k)
  {
    KeyReadsBack(k);
  }

  lemma StoredKeyParses(store: Store, db: Db, b: bytes)
    requires Stores(store, db) && b in store
    ensures Parse(b).Some? && Parse(b).value in db && IsBytes(b, Parse(b).value) && store[b] == db[Parse(b).value]
  {
    hide Parse, Encode, Encodable;
    var k :| k in db && IsBytes(b, k);
    IsBytesParses(b, k);
  }

  lemma BytesOf(k: Key)
    requires Encodable(k)
    ensures IsBytes(Encode(k), k) && Parse(Encode(k)) == Some(k)
  {
    KeyReadsBack(k);
  }

  lemma KeyIsStored(store: Store, db: Db, k: Key)
    requires Stores(store, db) && k in db
    ensures Encodable(k) && Encode(k) in store && store[Encode(k)] == db[k]
  {
  }

  /** The one entry that parses to a stored key. */
  lemma OneEntry(store: Store, db: Db, b: bytes, k: Key)
    requires Stores(store, db) && b in store && Parse(b) == Some(k)
    ensures Encodable(k) && b == Encode(k)
  {
    StoredKeyParses(store, db, b);
    hide Parse, Encode, Encodable;
  }

  lemma KeyIsLast(store: Store, db: Db, k: Key)
    requires Stores(store, db) && k in db
    ensures Encodable(k) && LastOf(store, Encode(k), k) && store[Encode(k)] == db[k]
  {
    hide Parse, Encode, Encodable, Less, Stores;
    KeyIsStored(store, db, k);
    BytesOf(k);
    forall c | c in store && Parse(c) == Some(k) ensures c == Encode(k) { OneEntry(store, db, c, k); }
  }

  lemma StoredIsCollected(store: Store, db: Db)
    requires Stores(store, db)
    ensures Collects(store, db) && Canonical(store) && Unrepeated(store)
  {
    hide Parse, Encode, Encodable, Less, IsBytes, Stores;
    forall b | b in store ensures Parse(b).Some? && Parse(b).value in db && IsBytes(b, Parse(b).value) {
      StoredKeyParses(store, db, b);
    }
    forall k | k in db
      ensures Encodable(k) && LastOf(store, Encode(k), k) && store[Encode(k)] == db[k]
    {
      KeyIsLast(store, db, k);
    }
    forall b, c | b in store && c in store && Twins(b, c) ensures false { NoTwins(store, db, b, c); }
  }

  lemma NoTwins(store: Store, db: Db, b: bytes, c: bytes)
    requires Stores(store, db) && b in store && c in store
    ensures !Twins(b, c)
  {
    hide Parse, Encode, Encodable, Stores;
    if Parse(b).Some? && Parse(b) == Parse(c) {
      OneEntry(store, db, b, Parse(b).value);
      OneEntry(store, db, c, Parse(b).value);
    }
  }

  lemma CollectedIsStored(store: Store, db: Db)
    requires Collects(store, db) && Canonical(store)
    ensures Stores(store, db)
  {
    hide Parse, Encode, Encodable, Less, IsBytes, LastOf, Collects, Canonical;
    forall b | b in store ensures exists k :: k in db && IsBytes(b, k) { CanonicalKey(store, db, b); }
    forall k | k in db
      ensures Encodable(k) && Encode(k) in store && store[Encode(k)] == db[k]
    {
      CollectedKey(store, db, k);
    }
  }

  lemma CanonicalKey(store: Store, db: Db, b: bytes)
    requires Collects(store, db) && Canonical(store) && b in store
    ensures Parse(b).Some? && Parse(b).value in db && IsBytes(b, Parse(b).value)
  {
    hide Parse, Encode, Encodable, LastOf;
    var k :| IsBytes(b, k);
    IsBytesParses(b, k);
  }

  lemma CollectedKey(store: Store, db: Db, k: Key)
    requires Collects(store, db) && Canonical(store) && k in db
    ensures Encodable(k) && Encode(k) in store && store[Encode(k)] == db[k]
  {
    hide Parse, Encode, Encodable, Less;
    var b :| LastOf(store, b, k) && store[b] == db[k];
    CanonicalKey(store, db, b);
  }

  /**
   * Startup accepts a store that has no orphaned index entry and only canonical keys exactly when it is the bytes of
   * entries that satisfy the invariant.
   */
  lemma AcceptedIsStructured(cfg: Config, store: Store, db: Db)
    ensures ScanAccepts(cfg, store, db) && NoOrphans(db) && Canonical(store) <==>
              Structured(cfg, db) && Stores(store, db)
  {
    hide Structured, VerifyAccepts, NoOrphans, Collects, Canonical, Stores, EntryAccepted, Parse, Encode, Encodable,
         IndexesExact, Unrepeated;
    InvariantIsVerify(cfg, db);
    if Collects(store, db) && Canonical(store) { CollectedIsStored(store, db); }
    if Structured(cfg, db) && Stores(store, db) {
      StoredIsCollected(store, db);
      forall b | b in store ensures EntryAccepted(cfg, b, store[b]) { StoredIsAccepted(cfg, store, db, b); }
      IndexesAreStored(cfg, store, db);
    }
  }

  /** So the bytes of every state of every run from the empty journal are accepted, wherever the process stops. */
  lemma EveryStateIsScanned(cfg: Config, run: Run, n: nat, store: Store)
    requires IsRun(cfg, run) && n <= |run.events| && run.states[0] == map[] && Stores(store, run.states[n])
    ensures ScanAccepts(cfg, store, run.states[n])
  {
    hide Structured, VerifyAccepts, NoOrphans, ScanAccepts, Canonical, Stores, Allowed, After;
    EmptyIsStructured(cfg);
    EveryStateIsStructured(cfg, run, n);
    AcceptedIsStructured(cfg, store, run.states[n]);
  }

  lemma StoredIsAccepted(cfg: Config, store: Store, db: Db, b: bytes)
    requires Structured(cfg, db) && Stores(store, db) && b in store
    ensures EntryAccepted(cfg, b, store[b])
  {
    hide Structured, EntryFits, Parse, IsBytes;
    StoredKeyParses(store, db, b);
    EntryWell(cfg, db, Parse(b).value);
  }

  lemma IndexesAreStored(cfg: Config, store: Store, db: Db)
    requires Structured(cfg, db) && Stores(store, db)
    ensures IndexesExact(store, db)
  {
    hide Structured, Stores, Encode, Encodable;
    forall id | HasRecord(db, id) ensures var k := IndexOf(id, Record(db, id)); Encodable(k) && Encode(k) in store {
      RecordIsIndexed(cfg, db, id);
      KeyIsStored(store, db, IndexOf(id, Record(db, id)));
    }
  }

  lemma RecordIsIndexed(cfg: Config, db: Db, id: bytes)
    requires Structured(cfg, db) && HasRecord(db, id)
    ensures IndexOf(id, Record(db, id)) in db
  {
  }

  // ---------------------------------------------------------------- an accepted key the journal never looks up

  /** The bytes of a key whose first length prefix is one byte longer than it need be. */
  function Overlong(k: Key): bytes
    requires Padded(k)
  {
    [KEY_VERSION, Namespace(k), |k.id| + 128, 0] + k.id + (if k.RefKey? || k.OriginalKey? then Component(k.batch) else [])
  }

  predicate Padded(k: Key) {
    !k.BatchKey? && !IsIndex(k) && Encodable(k) && |k.id| < 128
  }

  lemma OverlongComponent(v: bytes, rest: bytes)
    requires |v| < 128
    ensures ReadComponent([|v| + 128, 0] + v + rest) == Some((v, rest))
  {
    var b := [|v| + 128, 0] + v + rest;
    assert b[1..][0] == 0 && b[0] == |v| + 128;
    assert ReadUvarint(b[1..], 1) == Some((0, 1));
    assert ReadUvarint(b, 0) == Some((|v|, 2));
    assert b[2..2 + |v|] == v && b[2 + |v|..] == rest;
  }

  lemma OverlongParses(k: Key)
    requires Padded(k)
    ensures Parse(Overlong(k)) == Some(k)
  {
    hide ReadComponent, Component, ParseOne;
    var rest := if k.RefKey? || k.OriginalKey? then Component(k.batch) else [];
    OverlongComponent(k.id, rest);
    assert Overlong(k) == [KEY_VERSION, Namespace(k)] + ([|k.id| + 128, 0] + k.id + rest);
    assert Overlong(k)[2..] == [|k.id| + 128, 0] + k.id + rest;
    if k.RefKey? || k.OriginalKey? {
      OneReadsBack(k.batch);
    } else {
      OverlongAlone(k.id);
      assert [|k.id| + 128, 0] + k.id + rest == [|k.id| + 128, 0] + k.id;
    }
  }

  lemma OverlongAlone(v: bytes)
    requires |v| < 128
    ensures ParseOne([|v| + 128, 0] + v) == Some(v)
  {
    OverlongComponent(v, []);
    assert [|v| + 128, 0] + v + [] == [|v| + 128, 0] + v;
  }

  /** Such bytes are those of no key. */
  lemma OverlongIsNoKey(k: Key, l: Key)
    requires Padded(k)
    ensures !IsBytes(Overlong(k), l)
  {
    hide Overlong, Padded, Encode, Parse;
    OverlongParses(k);
    OverlongIsLonger(k);
    if Encodable(l) { KeyReadsBack(l); }
  }

  lemma OverlongIsLonger(k: Key)
    requires Padded(k)
    ensures Overlong(k) != Encode(k)
  {
    var b := Encode(k);
    assert Component(k.id)[0] == |k.id|;
    assert b[2] == |k.id|;
  }

  /** The store with the bytes of one key replaced. */
  function Respelled(store: Store, k: Key): Store
    requires Padded(k) && Encode(k) in store
  {
    (store - {Encode(k)})[Overlong(k) := store[Encode(k)]]
  }

  /** The one entry of the respelled store that parses to a key. */
  lemma RespelledEntry(store: Store, db: Db, k: Key, b: bytes, l: Key)
    requires Stores(store, db) && k in db && Padded(k) && Encode(k) in store
    requires b in Respelled(store, k) && Parse(b) == Some(l)
    ensures Encodable(l) && l in db && b == if l == k then Overlong(k) else Encode(l)
    ensures Respelled(store, k)[b] == db[l]
  {
    OverlongParses(k);
    hide Parse, Encode, Encodable, Overlong, Padded, Stores;
    KeyIsStored(store, db, k);
    if b != Overlong(k) {
      OneEntry(store, db, b, l);
      StoredKeyParses(store, db, b);
    }
  }

  lemma RespelledKey(store: Store, db: Db, k: Key, l: Key)
    requires Stores(store, db) && k in db && l in db && Padded(k) && Encode(k) in store
    ensures exists b :: LastOf(Respelled(store, k), b, l) && Respelled(store, k)[b] == db[l]
  {
    var other := Respelled(store, k);
    OverlongParses(k);
    hide Parse, Encode, Encodable, Overlong, Padded, Stores, Less, Respelled;
    KeyIsStored(store, db, l);
    BytesOf(l);
    StillThere(store, k, l);
    var b := if l == k then Overlong(k) else Encode(l);
    forall c | c in other && Parse(c) == Some(l) ensures c == b { RespelledEntry(store, db, k, c, l); }
    RespelledEntry(store, db, k, b, l);
    assert LastOf(other, b, l);
  }

  lemma StillThere(store: Store, k: Key, l: Key)
    requires Padded(k) && Encode(k) in store && Encodable(l) && Encode(l) in store
    ensures Overlong(k) in Respelled(store, k) && Encode(k) !in Respelled(store, k)
    ensures l != k ==> Encode(l) in Respelled(store, k)
  {
    hide Overlong, Encode, Encodable;
    OverlongIsLonger(k);
    if Encode(l) == Encode(k) { EncodeInjective(l, k); }
  }

  lemma RespelledCollects(store: Store, db: Db, k: Key)
    requires Stores(store, db) && k in db && Padded(k) && Encode(k) in store
    ensures Collects(Respelled(store, k), db) && Unrepeated(Respelled(store, k))
  {
    hide Parse, Encode, Encodable, Overlong, Padded, Stores, Less, Respelled;
    var other := Respelled(store, k);
    forall b | b in other ensures Parse(b).Some? && Parse(b).value in db { RespelledParses(store, db, k, b); }
    forall l | l in db ensures exists b :: LastOf(other, b, l) && other[b] == db[l] { RespelledKey(store, db, k, l); }
    forall b, c | b in other && c in other && Twins(b, c) ensures false {
      RespelledEntry(store, db, k, b, Parse(b).value);
      RespelledEntry(store, db, k, c, Parse(b).value);
    }
  }

  lemma RespelledParses(store: Store, db: Db, k: Key, b: bytes)
    requires Stores(store, db) && k in db && Padded(k) && Encode(k) in store && b in Respelled(store, k)
    ensures Parse(b).Some? && Parse(b).value in db && Respelled(store, k)[b] == db[Parse(b).value]
  {
    OverlongParses(k);
    hide Parse, Encode, Encodable, Overlong, Padded, Stores;
    KeyIsStored(store, db, k);
    if b != Overlong(k) { StoredKeyParses(store, db, b); }
  }

  /**
   * Any entry but an index or a batch, of any store that satisfies the invariant, can be respelled so that startup
   * still accepts the store, without any orphan, while no lookup of the entry will find it.
   */
  lemma OverlongIsAccepted(cfg: Config, store: Store, db: Db, k: Key)
    requires Structured(cfg, db) && Stores(store, db) && k in db && Padded(k) && Encode(k) in store
    ensures ScanAccepts(cfg, Respelled(store, k), db) && NoOrphans(db)
    ensures Encode(k) !in Respelled(store, k) && !Canonical(Respelled(store, k))
  {
    hide Structured, VerifyAccepts, NoOrphans, Collects, EntryAccepted, Parse, Encode, Encodable, Overlong, Stores,
         Padded, Unrepeated,
         Respelled, IsBytes, IndexesExact;
    var other := Respelled(store, k);
    InvariantIsVerify(cfg, db);
    RespelledCollects(store, db, k);
    forall b | b in other ensures EntryAccepted(cfg, b, other[b]) { RespelledIsAccepted(cfg, store, db, k, b); }
    RespelledIndexes(cfg, store, db, k);
    KeyIsStored(store, db, k);
    BytesOf(k);
    StillThere(store, k, k);
    forall l ensures !IsBytes(Overlong(k), l) { OverlongIsNoKey(k, l); }
  }

  lemma RespelledIsAccepted(cfg: Config, store: Store, db: Db, k: Key, b: bytes)
    requires Structured(cfg, db) && Stores(store, db) && k in db && Padded(k) && Encode(k) in store
    requires b in Respelled(store, k)
    ensures EntryAccepted(cfg, b, Respelled(store, k)[b])
  {
    hide Structured, EntryFits, Parse, Stores, Padded, Encode, Respelled;
    RespelledParses(store, db, k, b);
    EntryWell(cfg, db, Parse(b).value);
  }

  lemma RespelledIndexes(cfg: Config, store: Store, db: Db, k: Key)
    requires Structured(cfg, db) && Stores(store, db) && k in db && Padded(k) && Encode(k) in store
    ensures IndexesExact(Respelled(store, k), db)
  {
    hide Structured, Stores, Encode, Encodable, Respelled, Padded, IndexOf;
    forall id | HasRecord(db, id)
      ensures var l := IndexOf(id, Record(db, id)); Encodable(l) && Encode(l) in Respelled(store, k)
    {
      IndexIsThere(cfg, store, db, k, id);
    }
  }

  lemma IndexIsThere(cfg: Config, store: Store, db: Db, k: Key, id: bytes)
    requires Structured(cfg, db) && Stores(store, db) && k in db && Padded(k) && Encode(k) in store && HasRecord(db, id)
    ensures var l := IndexOf(id, Record(db, id)); Encodable(l) && Encode(l) in Respelled(store, k)
  {
    hide Structured, Stores, Encode, Encodable, Respelled, Padded, IndexOf;
    PaddedIsNoIndex(k);
    RecordIsIndexed(cfg, db, id);
    var l := IndexOf(id, Record(db, id));
    IndexIsIndex(id, Record(db, id));
    KeyIsStored(store, db, l);
    StillThere(store, k, l);
  }

  lemma IndexIsIndex(id: bytes, r: Stored)
    ensures IsIndex(IndexOf(id, r))
  {
  }

  lemma PaddedIsNoIndex(k: Key)
    requires Padded(k)
    ensures !IsIndex(k)
  {
  }

  const SOMEONE: bytes := seq(ID_BYTES, _ => 48)
  const BURIED := Tombstone(SOMEONE, 1, 0, 1, [], 0, true)

  /**
   * A concrete store: one tombstone under an overlong key is accepted, and its identity is not known to be quarantined.
   */
  lemma VerifyMissesOverlongKeys(cfg: Config)
    ensures var store: Store := map[[1, 7, 192, 0] + SOMEONE := Tomb(BURIED)];
            var db: Db := map[QuarantineKey(SOMEONE) := Tomb(BURIED)];
            && ScanAccepts(cfg, store, db) && NoOrphans(db) && Encode(QuarantineKey(SOMEONE)) !in store
            && !Canonical(store)
  {
    hide Structured, Encode, SOMEONE, BURIED, Overlong, ScanAccepts, NoOrphans, Canonical, Padded, Stores, IsBytes;
    var k := QuarantineKey(SOMEONE);
    var db: Db := map[k := Tomb(BURIED)];
    SomeoneIsPadded();
    var store: Store := map[Encode(k) := Tomb(BURIED)];
    LoneTombstone(cfg, db);
    BytesOf(k);
    LoneStore(store, db, k);
    OverlongIsAccepted(cfg, store, db, k);
    assert Respelled(store, k) == map[Overlong(k) := Tomb(BURIED)];
  }

  lemma SomeoneIsPadded()
    ensures Encodable(QuarantineKey(SOMEONE)) && Padded(QuarantineKey(SOMEONE))
    ensures Overlong(QuarantineKey(SOMEONE)) == [1, 7, 192, 0] + SOMEONE
  {
  }

  lemma LoneStore(store: Store, db: Db, k: Key)
    requires Encodable(k) && db.Keys == {k} && store == map[Encode(k) := db[k]]
    ensures Stores(store, db)
  {
    hide Encode, Encodable;
    BytesOf(k);
  }

  lemma LoneTombstone(cfg: Config, db: Db)
    requires db == map[QuarantineKey(SOMEONE) := Tomb(BURIED)]
    ensures Structured(cfg, db)
  {
    assert forall x :: RefSet(db, x) == {} && OriginalSet(db, x) == {} && !HasRecord(db, x);
  }
}
