/**
 * A restart: every entry of a valid journal is read back from its bytes, and startup accepts exactly what the invariant
 * says.
 */
module JournalRestart {
  import opened Basics
  import opened Encoding
  import opened JournalKeys
  import opened JournalModel
  import opened JournalEvents
  import opened JournalVerify
  import opened JournalCodec
  import opened JournalEngine

  // ---------------------------------------------------------------- values as bytes

  /** SHA-256, the text of a claim token and the bytes of an envelope, of which only the shapes matter. */
  ghost predicate Writes(h: bytes -> bytes, text: Token -> bytes, body: Envelope -> bytes) {
    && IsHash(h) && (forall t :: ValidToken(text(t)))
    && forall e :: |body(e)| == e.size
  }

  function RawOf(text: Token -> bytes, body: Envelope -> bytes, r: Stored): RawStored
    requires r.priority < 256
  {
    RawStored(if r.state.Pending? then 1 else if r.state.Claimed? then 2 else 3, r.priority, r.received, r.claimExpiry,
              r.committedAt,
              r.attempt, r.claimOwner, if r.claimToken.Some? then text(r.claimToken.value) else [], r.semantic, body(r.envelope))
  }

  const RESERVE_MAGIC: bytes := [74, 84, 82, 49]

  /** reserveValue. */
  function ReserveValue(h: bytes -> bytes): bytes {
    Checked(h, RESERVE_MAGIC, seq(RESERVE_BYTES, _ => 0))
  }

  /** What the fields of a value's Go type can hold. */
  predicate Carried(text: Token -> bytes, body: Envelope -> bytes, v: Value) {
    match v
    case Empty => true
    case Rec(r) => r.priority < 256 && StoredFits(RawOf(text, body, r))
    case Bat(t) => BatchFits(t)
    case Tomb(q) => TombstoneFits(q)
    case Reserve => true
  }

  function EncodeValue(h: bytes -> bytes, text: Token -> bytes, body: Envelope -> bytes, v: Value): bytes
    requires Carried(text, body, v)
  {
    match v
    case Empty => []
    case Rec(r) => EncodeStored(h, RawOf(text, body, r))
    case Bat(t) => EncodeBatch(h, t)
    case Tomb(q) => EncodeTombstone(h, q)
    case Reserve => ReserveValue(h)
  }

  /** The decoder of the key's namespace opens `data` as this value. */
  ghost predicate Reads(h: bytes -> bytes, text: Token -> bytes, body: Envelope -> bytes, k: Key, v: Value,
                        data: bytes) {
    match k
    case BatchKey(_) => v.Bat? && DecodeBatch(h, data) == Some(v.t)
    case RecordKey(_) => v.Rec? && v.r.priority < 256 && DecodeStored(h, data) == Some(RawOf(text, body, v.r))
    case QuarantineKey(_) => v.Tomb? && DecodeTombstone(h, data) == Some(v.q)
    case ReserveKey(_) => v.Reserve? && data == ReserveValue(h)
    case _ => v.Empty? && data == []
  }

  // ---------------------------------------------------------------- one entry of the startup scan

  /** What the invariant says of one entry by itself. */
  ghost predicate EntryFits(cfg: Config, k: Key, v: Value) {
    Fits(cfg, k, v) && (k.BatchKey? ==> WellBatched(v.t))
  }

  /** What verify compares a decoded record with. */
  predicate RecordMatches(cfg: Config, id: bytes, r: Stored) {
    && r.envelope.id == id && r.envelope.received == r.received && r.envelope.semantic == r.semantic
    &&
       (r.state.Claimed? ==> r.claimExpiry.Some? && r.claimToken == Some(Token(cfg.owner, r.claimOwner, id, r.attempt, r.claimExpiry.value)))
  }

  /** verify's scan of one entry, from the bytes of its key and of its value. */
  ghost predicate Scans(cfg: Config, h: bytes -> bytes, text: Token -> bytes, body: Envelope -> bytes, b: bytes,
                        v: Value)
    requires Carried(text, body, v)
  {
    && Parse(b).Some? && Reads(h, text, body, Parse(b).value, v, EncodeValue(h, text, body, v))
    && match Parse(b).value
       case BatchKey(b) => ValidIdentifier(b, MAX_BOUNDARY) && v.t.live != []
       case RecordKey(id) => ValidId(id) && RecordMatches(cfg, id, v.r)
       case QuarantineKey(id) => ValidId(id) && v.q.id == id
       case _ => true
  }

  lemma RecordScans(cfg: Config, h: bytes -> bytes, text: Token -> bytes, body: Envelope -> bytes, id: bytes, r: Stored)
    requires Writes(h, text, body) && r.priority < 256 && StoredFits(RawOf(text, body, r))
    requires r.envelope.size <= MAX_LENGTH
    ensures WellStored(cfg, id, r) <==>
              DecodeStored(h, EncodeStored(h, RawOf(text, body, r))) == Some(RawOf(text, body, r)) &&
              RecordMatches(cfg, id, r)
  {
    StoredReadsBack(h, RawOf(text, body, r));
    hide EncodeStored, DecodeStored, Hex, IdentifierByte;
    AcceptsTheRecord(cfg, text, body, id, r);
  }

  lemma AcceptsTheRecord(cfg: Config, text: Token -> bytes, body: Envelope -> bytes, id: bytes, r: Stored)
    requires (forall t :: ValidToken(text(t))) && |body(r.envelope)| == r.envelope.size && r.envelope.size <= MAX_LENGTH
    requires r.priority < 256 && StoredFits(RawOf(text, body, r))
    ensures WellStored(cfg, id, r) <==> StoredAcceptable(RawOf(text, body, r)) && RecordMatches(cfg, id, r)
  {
    if r.claimToken.Some? { assert ValidToken(text(r.claimToken.value)); }
    hide ValidToken, ValidIdentifier;
    TokenIsText(text, r);
  }

  lemma TokenIsText(text: Token -> bytes, r: Stored)
    requires forall t :: ValidToken(text(t))
    ensures r.claimToken.Some? ==> |text(r.claimToken.value)| == TOKEN_BYTES && ValidToken(text(r.claimToken.value))
    ensures !ValidToken([])
  {
  }

  /**
   * For every byte key and every value its type can hold, what the scan of an entry's bytes accepts is a key its parser
   * takes and the invariant's condition on that entry.
   */
  lemma ScanIsExact(cfg: Config, h: bytes -> bytes, text: Token -> bytes, body: Envelope -> bytes, b: bytes, v: Value)
    requires Writes(h, text, body) && Carried(text, body, v) && (v.Rec? ==> v.r.envelope.size <= MAX_LENGTH)
    ensures Scans(cfg, h, text, body, b, v) <==> Parse(b).Some? && EntryFits(cfg, Parse(b).value, v)
  {
    if Parse(b).Some? { ParsedScanIsExact(cfg, h, text, body, b, Parse(b).value, v); }
  }

  lemma ParsedScanIsExact(cfg: Config, h: bytes -> bytes, text: Token -> bytes, body: Envelope -> bytes, b: bytes,
                          k: Key, v: Value)
    requires Writes(h, text, body) && Carried(text, body, v) && (v.Rec? ==> v.r.envelope.size <= MAX_LENGTH)
    requires Parse(b) == Some(k)
    ensures Scans(cfg, h, text, body, b, v) <==> EntryFits(cfg, k, v)
  {
    hide EncodeStored, DecodeStored, EncodeBatch, DecodeBatch, EncodeTombstone, DecodeTombstone, WellStored, WellBuried,
         BatchAcceptable,
         RecordMatches, ValidId, ValidIdentifier, StoredFits, BatchFits, TombstoneFits, RawOf, ReserveValue, Parse;
    match v
    case Rec(r) => if k.RecordKey? { RecordScans(cfg, h, text, body, k.id, r); }
    case Bat(t) => BatchReadsBack(h, t);
    case Tomb(q) => TombstoneReadsBack(h, q);
    case _ =>
  }

  // ---------------------------------------------------------------- a whole journal

  lemma FitsIsCarried(cfg: Config, text: Token -> bytes, body: Envelope -> bytes, k: Key, v: Value)
    requires (forall t :: ValidToken(text(t))) && forall e :: |body(e)| == e.size
    requires EntryFits(cfg, k, v)
    ensures Carried(text, body, v) && (v.Rec? ==> v.r.envelope.size <= MAX_LENGTH)
  {
    hide Hex, IdentifierByte, Ascending, MembersAscending;
    match v
    case Rec(r) => TokenIsText(text, r);
    case Bat(t) => BatchIsCarried(t);
    case _ =>
  }

  lemma BatchIsCarried(t: Batch)
    requires BatchAcceptable(t)
    ensures BatchFits(t)
  {
    hide Hex, Ascending, MembersAscending;
    forall i | 0 <= i < |t.original| ensures MemberFits(t.original[i]) { assert t.original[i] in t.original; }
    forall i | 0 <= i < |t.live| ensures |t.live[i]| < U64 {
      assert t.live[i] in t.live;
      var m :| m in t.original && m.id == t.live[i];
    }
  }

  lemma ValueLength(h: bytes -> bytes, text: Token -> bytes, body: Envelope -> bytes, v: Value)
    requires Writes(h, text, body) && Carried(text, body, v)
    ensures |EncodeValue(h, text, body, v)| == ValueSize(v)
  {
    hide StoredSize, BatchSize, TombstoneSize, EncodeStored, EncodeBatch, EncodeTombstone, StoredFits, BatchFits,
         TombstoneFits;
    match v
    case Rec(r) =>
      TokenIsText(text, r);
      hide ValidToken;
      StoredSizeIsLength(h, RawOf(text, body, r), r);
    case Bat(t) => BatchSizeIsLength(h, t);
    case Tomb(q) => TombstoneReadsBack(h, q);
    case Reserve => CheckedReadsBack(h, RESERVE_MAGIC, seq(RESERVE_BYTES, _ => 0));
    case Empty =>
  }

  /**
   * Key and value of an entry are read back from their bytes, and the account charges the entry those bytes and the
   * overhead.
   */
  ghost predicate ReadsBack(cfg: Config, h: bytes -> bytes, text: Token -> bytes, body: Envelope -> bytes, k: Key,
                            v: Value) {
    && Encodable(k) && Parse(Encode(k)) == Some(k) && Carried(text, body, v)
    && Scans(cfg, h, text, body, Encode(k), v)
    && Cost(k, v, cfg.overhead) == |Encode(k)| + |EncodeValue(h, text, body, v)| + cfg.overhead
  }

  lemma EntryReadsBack(cfg: Config, db: Db, h: bytes -> bytes, text: Token -> bytes, body: Envelope -> bytes, k: Key)
    requires Structured(cfg, db) && Writes(h, text, body) && k in db
    ensures ReadsBack(cfg, h, text, body, k, db[k])
  {
    EntryWell(cfg, db, k);
    StructuredIsEncodable(cfg, db, k);
    hide Structured, EntryFits, Encodable, Encode, Parse, Carried, Scans, EncodeValue, ValueSize, KeySize;
    KeyReadsBack(k);
    FitsIsCarried(cfg, text, body, k, db[k]);
    ScanIsExact(cfg, h, text, body, Encode(k), db[k]);
    KeySizeIsLength(k);
    ValueLength(h, text, body, db[k]);
  }

  lemma EntryWell(cfg: Config, db: Db, k: Key)
    requires Structured(cfg, db) && k in db
    ensures EntryFits(cfg, k, db[k])
  {
    hide Indexed, WellBatched, MemberLinked, RefSet, OriginalSet, WellStored;
    assert Fits(cfg, k, db[k]);
    if k.BatchKey? { assert HasBatch(db, k.batch); }
  }

  /** A valid journal is one that startup accepts, with an exact account and no orphaned index entry. */
  lemma ValidIsVerify(j: Journal)
    ensures j.Valid() <==> VerifyAccepts(j.cfg, j.db) && NoOrphans(j.db) && j.Accounted()
  {
    hide Structured, VerifyAccepts, NoOrphans, Journal.Accounted;
    InvariantIsVerify(j.cfg, j.db);
  }

  /**
   * Whatever its operations did, a valid journal is accepted on restart and every entry decodes to what was written.
   */
  lemma ValidReopens(j: Journal, h: bytes -> bytes, text: Token -> bytes, body: Envelope -> bytes)
    requires j.Valid() && Writes(h, text, body)
    ensures VerifyAccepts(j.cfg, j.db) && j.usage == Total(j.db, j.cfg.overhead)
    ensures forall k :: k in j.db ==> ReadsBack(j.cfg, h, text, body, k, j.db[k])
  {
    hide Structured, VerifyAccepts, NoOrphans, ReadsBack, Total, OfPriority;
    InvariantIsVerify(j.cfg, j.db);
    forall k | k in j.db
      ensures ReadsBack(j.cfg, h, text, body, k, j.db[k])
    {
      EntryReadsBack(j.cfg, j.db, h, text, body, k);
    }
  }

  /** So is every state of every run from the empty journal, wherever the process stops. */
  lemma EveryStateReopens(cfg: Config, run: Run, n: nat, h: bytes -> bytes, text: Token -> bytes,
                          body: Envelope -> bytes)
    requires IsRun(cfg, run) && n <= |run.events| && run.states[0] == map[] && Writes(h, text, body)
    ensures VerifyAccepts(cfg, run.states[n])
    ensures forall k :: k in run.states[n] ==> ReadsBack(cfg, h, text, body, k, run.states[n][k])
  {
    hide Structured, VerifyAccepts, NoOrphans, ReadsBack, Allowed, After;
    EmptyIsStructured(cfg);
    EveryStateIsStructured(cfg, run, n);
    InvariantIsVerify(cfg, run.states[n]);
    forall k | k in run.states[n] ensures ReadsBack(cfg, h, text, body, k, run.states[n][k]) {
      EntryReadsBack(cfg, run.states[n], h, text, body, k);
    }
  }
}
