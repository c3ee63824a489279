/** The durable journal as a finite ordered map, its invariant, and what each transition does to it. */
module JournalModel {
  import opened Basics
  import opened Encoding
  import opened JournalKeys

  const MAX_TRANSITION := 1_000
  const MAX_APPEND := 10_000
  const MAX_OWNER := 128
  const MAX_BOUNDARY := 128
  const MAX_ATTEMPT := 0xffff_ffff
  const ID_BYTES := 64
  const DIGEST_BYTES := 32
  const TOKEN_BYTES := 70
  const RESERVE_BYTES := MAX_OWNER + 1 + TOKEN_BYTES - 1
  /** No slice of the program is longer. */
  const MAX_LENGTH := 0x7fff_ffff_ffff_ffff

  datatype Config = Config(owner: bytes, claimTTL: int, safetyDelay: int, overhead: nat, maxBatchRefs: nat,
                           maxBytes: nat, minFree: nat)

  /** A claim token is the hash of these fields; the hash is taken to be injective. */
  datatype Token = Token(owner: bytes, worker: bytes, id: bytes, attempt: nat, expiry: int)

  /** A durable envelope: opaque bytes, of which only the identity, the receipt time and the digest matter. */
  datatype Envelope = Envelope(id: bytes, received: int, semantic: bytes, size: nat)

  datatype State = Pending | Claimed | Committed

  datatype Stored = Stored(state: State, priority: nat, received: int, claimExpiry: Option<int>,
                           committedAt: Option<int>,
                           attempt: nat, claimOwner: bytes, claimToken: Option<Token>, semantic: bytes, envelope: Envelope)

  datatype Member = Member(id: bytes, priority: nat, semantic: bytes)

  datatype Batch = Batch(original: seq<Member>, live: seq<bytes>)

  datatype Tombstone = Tombstone(id: bytes, reason: nat, at: int, attempt: nat, semantic: bytes, priority: nat,
                                 legacy: bool)

  datatype Value = Empty | Rec(r: Stored) | Bat(t: Batch) | Tomb(q: Tombstone) | Reserve

  type Db = map<Key, Value>

  // ---------------------------------------------------------------- sizes and the byte account

  function Prefixed(n: nat): nat {
    |Uvarint(n)| + n
  }

  /** Length of encodeStored: magic, fixed fields, owner, token, digest, envelope, checksum. */
  function StoredSize(r: Stored): nat {
    4 + 32 + Prefixed(|r.claimOwner|) + Prefixed(if r.claimToken.Some? then TOKEN_BYTES else 0) + DIGEST_BYTES +
    Prefixed(r.envelope.size) + 32
  }

  function MembersSize(s: seq<Member>): nat {
    if s == [] then 0 else MembersSize(s[..|s| - 1]) + Prefixed(|s[|s| - 1].id|) + 1 + DIGEST_BYTES
  }

  function IdsSize(s: seq<bytes>): nat {
    if s == [] then 0 else IdsSize(s[..|s| - 1]) + Prefixed(|s[|s| - 1]|)
  }

  function BatchSize(t: Batch): nat {
    4 + |Uvarint(|t.original|)| + MembersSize(t.original) + |Uvarint(|t.live|)| + IdsSize(t.live) + 32
  }

  function TombstoneSize(q: Tombstone): nat {
    4 + 14 + (if q.legacy then 0 else 1 + DIGEST_BYTES) + Prefixed(|q.id|) + 32
  }

  function ValueSize(v: Value): nat {
    match v
    case Empty => 0
    case Rec(r) => StoredSize(r)
    case Bat(t) => BatchSize(t)
    case Tomb(q) => TombstoneSize(q)
    case Reserve => 4 + RESERVE_BYTES + 32
  }

  function KeySize(k: Key): nat {
    match k
    case BatchKey(b) => 2 + Prefixed(|b|)
    case RecordKey(id) => 2 + Prefixed(|id|)
    case PendingKey(_, _, id) => 11 + Prefixed(|id|)
    case ClaimKey(_, id) => 10 + Prefixed(|id|)
    case CommittedKey(_, id) => 10 + Prefixed(|id|)
    case QuarantineKey(id) => 2 + Prefixed(|id|)
    case RefKey(id, b) => 2 + Prefixed(|id|) + Prefixed(|b|)
    case ReserveKey(id) => 2 + Prefixed(|id|)
    case OriginalKey(id, b) => 2 + Prefixed(|id|) + Prefixed(|b|)
  }

  lemma KeySizeIsLength(k: Key)
    requires Encodable(k)
    ensures |Encode(k)| == KeySize(k)
  {
  }

  function Cost(k: Key, v: Value, overhead: nat): nat {
    KeySize(k) + ValueSize(v) + overhead
  }

  /** Accounted bytes: the cost of every entry outside the manifest. */
  ghost function Total(db: Db, overhead: nat): nat
    decreases |db|
  {
    if db == map[] then 0
    else var k :| k in db; Cost(k, db[k], overhead) + Total(db - {k}, overhead)
  }

  ghost function OfPriority(db: Db, p: nat): set<Key> {
    set k | k in db && k.RecordKey? && db[k].Rec? && db[k].r.priority == p
  }

  // ---------------------------------------------------------------- the invariant

  predicate Hex(c: byte) {
    48 <= c <= 57 || 97 <= c <= 102
  }

  predicate IdentifierByte(c: byte) {
    97 <= c <= 122 || 65 <= c <= 90 || 48 <= c <= 57 || c == 45 || c == 95 || c == 46 || c == 58 || c == 47
  }

  /** validRecordID: 64 lower-case hexadecimal digits. */
  predicate ValidId(id: bytes) {
    |id| == ID_BYTES && forall i :: 0 <= i < |id| ==> Hex(id[i])
  }

  predicate ValidIdentifier(s: bytes, max: nat) {
    0 < |s| <= max && forall i :: 0 <= i < |s| ==> IdentifierByte(s[i])
  }

  predicate ValidOwner(owner: bytes) {
    ValidIdentifier(owner, MAX_OWNER)
  }

  /** What decodeStored and the record checks of verify accept under one record key. */
  predicate WellStored(cfg: Config, id: bytes, r: Stored) {
    && r.priority < 4 && ValidTime(r.received) && r.attempt <= MAX_ATTEMPT && |r.semantic| == DIGEST_BYTES
    && r.envelope.size <= MAX_LENGTH && r.envelope.id == id && r.envelope.received == r.received
    && r.envelope.semantic == r.semantic && r.envelope.size > 0
    && match r.state
       case Pending => r.claimOwner == [] && r.claimToken.None? && r.claimExpiry.None? && r.committedAt.None?
       case Claimed => ValidOwner(r.claimOwner) && r.claimExpiry.Some? && ValidTime(r.claimExpiry.value) &&
                       r.committedAt.None? && r.attempt > 0 &&
                       r.claimToken == Some(Token(cfg.owner, r.claimOwner, id, r.attempt, r.claimExpiry.value))
       case Committed => r.claimOwner == [] && r.claimToken.Some? && r.claimExpiry.None? &&
                         r.committedAt.Some? && ValidTime(r.committedAt.value) && r.attempt > 0
  }

  /** What decodeQuarantine accepts; a legacy tombstone has neither digest nor priority. */
  predicate WellBuried(q: Tombstone) {
    && 1 <= q.reason <= 3 && ValidTime(q.at) && 0 < q.attempt <= MAX_ATTEMPT && ValidId(q.id)
    && if q.legacy then q.priority == 0 && q.semantic == [] else q.priority < 4 && |q.semantic| == DIGEST_BYTES
  }

  /** The one index entry a record has. */
  function IndexOf(id: bytes, r: Stored): Key {
    if r.state.Pending? then PendingKey(r.priority, r.received, id)
    else if r.state.Claimed? then ClaimKey(if r.claimExpiry.Some? then r.claimExpiry.value else 0, id)
    else CommittedKey(if r.committedAt.Some? then r.committedAt.value else 0, id)
  }

  predicate IsIndex(k: Key) {
    k.PendingKey? || k.ClaimKey? || k.CommittedKey?
  }

  predicate Fits(cfg: Config, k: Key, v: Value) {
    match k
    case BatchKey(b) => ValidIdentifier(b, MAX_BOUNDARY) && v.Bat?
    case RecordKey(id) => ValidId(id) && v.Rec? && WellStored(cfg, id, v.r)
    case QuarantineKey(id) => ValidId(id) && v.Tomb? && v.q.id == id && WellBuried(v.q)
    case ReserveKey(_) => v.Reserve?
    case _ => v.Empty?
  }

  predicate HasRecord(db: Db, id: bytes) {
    RecordKey(id) in db && db[RecordKey(id)].Rec?
  }

  function Record(db: Db, id: bytes): Stored
    requires HasRecord(db, id)
  {
    db[RecordKey(id)].r
  }

  ghost predicate Typed(cfg: Config, db: Db) {
    forall k :: k in db ==> Fits(cfg, k, db[k])
  }

  /** Exactly one index per record, none without a record; a reserve exactly while pending; no revived quarantine. */
  ghost predicate Indexed(db: Db) {
    && (forall id :: HasRecord(db, id) ==> IndexOf(id, Record(db, id)) in db)
    && (forall k :: k in db && IsIndex(k) ==> HasRecord(db, k.id) && IndexOf(k.id, Record(db, k.id)) == k)
    && (forall id :: ReserveKey(id) in db <==> HasRecord(db, id) && Record(db, id).state.Pending?)
    && (forall id :: QuarantineKey(id) in db ==> !HasRecord(db, id))
  }

  ghost predicate MembersAscending(s: seq<Member>) {
    forall i, j :: 0 <= i < j < |s| ==> Less(s[i].id, s[j].id)
  }

  predicate HasBatch(db: Db, b: bytes) {
    BatchKey(b) in db && db[BatchKey(b)].Bat?
  }

  function BatchOf(db: Db, b: bytes): Batch
    requires HasBatch(db, b)
  {
    db[BatchKey(b)].t
  }

  /** What decodeBatch accepts. */
  ghost predicate BatchAcceptable(t: Batch) {
    && 0 < |t.original| <= MAX_APPEND && |t.live| <= |t.original| && Ascending(t.live) && MembersAscending(t.original)
    && (forall m :: m in t.original ==> ValidId(m.id) && m.priority < 4 && |m.semantic| == DIGEST_BYTES)
    && (forall id :: id in t.live ==> exists m :: m in t.original && m.id == id)
  }

  /** What verify accepts under a batch key: an acceptable batch with a live member. */
  ghost predicate WellBatched(t: Batch) {
    t.live != [] && BatchAcceptable(t)
  }

  ghost function RefSet(db: Db, id: bytes): set<Key> {
    set k | k in db && k.RefKey? && k.id == id
  }

  ghost function OriginalSet(db: Db, id: bytes): set<Key> {
    set k | k in db && k.OriginalKey? && k.id == id
  }

  ghost predicate MemberLinked(db: Db, b: bytes, m: Member)
    requires HasBatch(db, b)
  {
    && OriginalKey(m.id, b) in db
    && (m.id in BatchOf(db, b).live ==> HasRecord(db, m.id) && RefKey(m.id, b) in db)
    && (HasRecord(db, m.id) ==> Record(db, m.id).semantic == m.semantic && Record(db, m.id).priority == m.priority)
  }

  /** Batches, live references and original references agree both ways, within the reference bound. */
  ghost predicate Linked(cfg: Config, db: Db) {
    && (forall b :: HasBatch(db, b) ==> WellBatched(BatchOf(db, b)))
    && (forall b, m :: HasBatch(db, b) && m in BatchOf(db, b).original ==> MemberLinked(db, b, m))
    && (forall id, b :: RefKey(id, b) in db ==> HasBatch(db, b) && id in BatchOf(db, b).live)
    && (forall id, b :: OriginalKey(id, b) in db ==>
          HasBatch(db, b) && exists m :: m in BatchOf(db, b).original && m.id == id)
    && (forall id :: HasRecord(db, id) ==> 0 < |RefSet(db, id)| <= cfg.maxBatchRefs)
    && (forall id :: |OriginalSet(db, id)| <= cfg.maxBatchRefs)
  }

  ghost predicate Structured(cfg: Config, db: Db) {
    Typed(cfg, db) && Indexed(db) && Linked(cfg, db)
  }

  // ---------------------------------------------------------------- one record changes state

  datatype Move = Expire | Claim(worker: bytes, expiry: int) | Renew(expiry: int) | Commit(at: int)

  function Moved(cfg: Config, id: bytes, r: Stored, move: Move): Stored {
    match move
    case Expire => r.(state := Pending, claimOwner := [], claimToken := None, claimExpiry := None)
    case Claim(worker, expiry) =>
      r.(state := Claimed, attempt := r.attempt + 1, claimOwner := worker, claimExpiry := Some(expiry),
         claimToken := Some(Token(cfg.owner, worker, id, r.attempt + 1, expiry)))
    case Renew(expiry) =>
      r.(claimExpiry := Some(expiry), claimToken := Some(Token(cfg.owner, r.claimOwner, id, r.attempt, expiry)))
    case Commit(at) => r.(state := Committed, committedAt := Some(at), claimOwner := [], claimExpiry := None)
  }

  predicate Movable(r: Stored, move: Move) {
    match move
    case Expire => r.state.Claimed?
    case Claim(worker, expiry) => r.state.Pending? && r.attempt < MAX_ATTEMPT && ValidOwner(worker) && ValidTime(expiry)
    case Renew(expiry) => r.state.Claimed? && ValidTime(expiry)
    case Commit(at) => r.state.Claimed? && ValidTime(at)
  }

  /** Replace a record, its index entry and its reserve. */
  function Restate(db: Db, id: bytes, r: Stored): Db
    requires HasRecord(db, id)
  {
    var base := (db - {IndexOf(id, Record(db, id)), ReserveKey(id)})[RecordKey(id) := Rec(r)][IndexOf(id, r) := Empty];
    if r.state.Pending? then base[ReserveKey(id) := Reserve] else base
  }

  function MoveOne(cfg: Config, db: Db, id: bytes, move: Move): Db {
    if HasRecord(db, id) then Restate(db, id, Moved(cfg, id, Record(db, id), move)) else db
  }

  function MoveAll(cfg: Config, db: Db, ids: seq<bytes>, move: Move): Db {
    if ids == [] then db else MoveOne(cfg, MoveAll(cfg, db, ids[..|ids| - 1], move), ids[|ids| - 1], move)
  }

  // ---------------------------------------------------------------- one record leaves

  function Without(ids: seq<bytes>, id: bytes): seq<bytes> {
    if ids == [] then []
    else Without(ids[..|ids| - 1], id) + if ids[|ids| - 1] == id then [] else [ids[|ids| - 1]]
  }

  /** The batch loses its last live member with this record. */
  predicate Dies(db: Db, b: bytes, id: bytes) {
    HasBatch(db, b) && RefKey(id, b) in db && Without(BatchOf(db, b).live, id) == []
  }

  predicate Dropped(db: Db, id: bytes, k: Key) {
    match k
    case RefKey(x, _) => x == id
    case BatchKey(b) => Dies(db, b, id)
    case OriginalKey(_, b) => Dies(db, b, id)
    case RecordKey(x) => x == id
    case ReserveKey(x) => x == id
    case QuarantineKey(_) => false
    case _ => k.id == id
  }

  function Trimmed(db: Db, id: bytes, k: Key): Value
    requires k in db
  {
    if k.BatchKey? && db[k].Bat? && RefKey(id, k.batch) in db
    then Bat(db[k].t.(live := Without(db[k].t.live, id))) else db[k]
  }

  /** removeBatchRefs together with the deletion of the record and its index entry. */
  function Remove(db: Db, id: bytes): Db {
    map k | k in db && !Dropped(db, id, k) :: Trimmed(db, id, k)
  }

  function RemoveAll(db: Db, ids: seq<bytes>): Db {
    if ids == [] then db else Remove(RemoveAll(db, ids[..|ids| - 1]), ids[|ids| - 1])
  }

  function QuarantineOne(db: Db, id: bytes, reason: nat, at: int): Db
    requires HasRecord(db, id)
  {
    var r := Record(db, id);
    Remove(db, id)[QuarantineKey(id) := Tomb(Tombstone(id, reason, at, r.attempt, r.semantic, r.priority, false))]
  }

  // ---------------------------------------------------------------- a batch arrives

  /**
   * An admission; the digest has the width of its type, and `accepted` is what the record, boundary and policy
   * validators said about it.
   */
  datatype Admission = Admission(id: bytes, priority: nat, batch: bytes, envelope: Envelope, accepted: bool)

  predicate ValidAdmission(a: Admission) {
    && a.accepted && ValidId(a.id) && a.priority < 4
    && a.envelope.id == a.id && ValidTime(a.envelope.received) && 0 < a.envelope.size <= MAX_LENGTH
    && |a.envelope.semantic| == DIGEST_BYTES
  }

  function Fresh(a: Admission): Stored {
    Stored(Pending, a.priority, a.envelope.received, None, None, 0, [], None, a.envelope.semantic, a.envelope)
  }

  /** What AppendBatch writes for one admitted record. */
  function Entries(db: Db, b: bytes, a: Admission): map<Key, Value> {
    if HasRecord(db, a.id) then map[RefKey(a.id, b) := Empty]
    else if QuarantineKey(a.id) in db then
      (if db[QuarantineKey(a.id)].Tomb? && db[QuarantineKey(a.id)].q.legacy
       then map[QuarantineKey(a.id) := Tomb(db[QuarantineKey(a.id)].q.(semantic := a.envelope.semantic, priority := a.priority, legacy := false))]
       else map[])
    else map[RecordKey(a.id) := Rec(Fresh(a)), IndexOf(a.id, Fresh(a)) := Empty, RefKey(a.id, b) := Empty, ReserveKey(a.id) := Reserve]
  }

  predicate BecomesLive(db: Db, a: Admission) {
    HasRecord(db, a.id) || QuarantineKey(a.id) !in db
  }

  function AllEntries(db: Db, b: bytes, s: seq<Admission>): map<Key, Value> {
    if s == [] then map[] else AllEntries(db, b, s[..|s| - 1]) + Entries(db, b, s[|s| - 1])
  }

  function LiveIds(db: Db, s: seq<Admission>): seq<bytes> {
    if s == [] then []
    else LiveIds(db, s[..|s| - 1]) + if BecomesLive(db, s[|s| - 1]) then [s[|s| - 1].id] else []
  }

  function Members(s: seq<Admission>): (m: seq<Member>)
    ensures |m| == |s| && forall i :: 0 <= i < |s| ==> m[i] == Member(s[i].id, s[i].priority, s[i].envelope.semantic)
  {
    seq(|s|, i requires 0 <= i < |s| => Member(s[i].id, s[i].priority, s[i].envelope.semantic))
  }

  /** The batch record and its original references, written only when something is live. */
  function BatchEntries(db: Db, b: bytes, s: seq<Admission>): map<Key, Value> {
    if LiveIds(db, s) == [] then map[]
    else (map a | a in s :: OriginalKey(a.id, b) := Empty) + map[BatchKey(b) := Bat(Batch(Members(s), LiveIds(db, s)))]
  }

  /** AppendBatch of distinct admissions in id order. */
  function Append(db: Db, b: bytes, s: seq<Admission>): Db {
    db + AllEntries(db, b, s) + BatchEntries(db, b, s)
  }

  /** The replay check: every retained trace of the identity carries the same digest and priority. */
  ghost predicate Agrees(db: Db, a: Admission) {
    && (HasRecord(db, a.id) ==>
          Record(db, a.id).semantic == a.envelope.semantic && Record(db, a.id).priority == a.priority)
    && (forall b, m :: HasBatch(db, b) && m in BatchOf(db, b).original && m.id == a.id ==>
         m.semantic == a.envelope.semantic && m.priority == a.priority)
    &&
       (QuarantineKey(a.id) in db && db[QuarantineKey(a.id)].Tomb? && !db[QuarantineKey(a.id)].q.legacy && !HasRecord(db, a.id) ==>
         db[QuarantineKey(a.id)].q.semantic == a.envelope.semantic && db[QuarantineKey(a.id)].q.priority == a.priority)
  }

  // ---------------------------------------------------------------- iteration order

  /** `ks` are the first keys of `all` in byte order, all of them when fewer than `limit`. */
  ghost predicate FirstKeys(all: set<Key>, ks: seq<Key>, limit: nat) {
    && (forall k :: k in all ==> Encodable(k))
    && |ks| <= limit
    && (forall i :: 0 <= i < |ks| ==> ks[i] in all)
    && (forall i, j :: 0 <= i < j < |ks| ==> ks[i] in all && ks[j] in all && Less(Encode(ks[i]), Encode(ks[j])))
    && (forall k, i :: k in all && k !in ks && 0 <= i < |ks| ==> ks[i] in all && Less(Encode(ks[i]), Encode(k)))
    && (|ks| < limit ==> forall k :: k in all ==> k in ks)
  }

  function KeyIds(ks: seq<Key>): (ids: seq<bytes>)
    requires forall i :: 0 <= i < |ks| ==> IsIndex(ks[i])
    ensures |ids| == |ks| && forall i :: 0 <= i < |ks| ==> IsIndex(ks[i]) && ids[i] == ks[i].id
  {
    seq(|ks|, i requires 0 <= i < |ks| && IsIndex(ks[i]) => ks[i].id)
  }
}
