/** How the journal fills a mutation overlay, loop by loop, and that the overlay is the promised transition. */
module JournalOps {
  import opened Basics
  import opened JournalKeys
  import opened JournalModel
  import opened JournalInvariant
  import opened JournalAccount
  import opened JournalEvents

  datatype Error = NotHealthy | InvalidInput | DuplicateConflict | Capacity | StaleClaim | Corruption

  // ---------------------------------------------------------------- ordered iteration

  ghost predicate Sorted(ks: seq<Key>) {
    && (forall i :: 0 <= i < |ks| ==> Encodable(ks[i]))
    && (forall i, j :: 0 <= i < j < |ks| ==> Less(Encode(ks[i]), Encode(ks[j])))
  }

  method LeastKey(s: set<Key>) returns (k: Key)
    requires s != {} && forall x :: x in s ==> Encodable(x)
    ensures k in s && forall x :: x in s && x != k ==> Less(Encode(k), Encode(x))
  {
    hide Encode, Less;
    k :| k in s;
    var rest := s - {k};
    while rest != {}
      invariant k in s && k !in rest && rest <= s
      invariant forall x :: x in s - rest && x != k ==> Less(Encode(k), Encode(x))
      decreases rest
    {
      var x :| x in rest;
      LessTotal(Encode(k), Encode(x));
      if Encode(k) == Encode(x) { EncodeInjective(k, x); }
      if Less(Encode(x), Encode(k)) {
        forall y | y in s - rest && y != k
          ensures Less(Encode(x), Encode(y))
        {
          LessTransitive(Encode(x), Encode(k), Encode(y));
        }
        k := x;
      }
      rest := rest - {x};
    }
  }

  /** An iterator's view of a set of keys: each once, in byte order. */
  method SortedKeys(s: set<Key>) returns (ks: seq<Key>)
    requires forall x :: x in s ==> Encodable(x)
    ensures Sorted(ks) && forall x :: x in s <==> x in ks
  {
    hide Encode, Less;
    ks := [];
    var rest := s;
    while rest != {}
      invariant rest <= s && Sorted(ks)
      invariant forall x :: x in s - rest <==> x in ks
      invariant forall x, y :: x in ks && y in rest ==> Encodable(x) && Less(Encode(x), Encode(y))
      decreases rest
    {
      var k := LeastKey(rest);
      rest := rest - {k};
      ks := ks + [k];
    }
  }

  /** Index keys in one namespace, as a bounded iterator sees them. */
  predicate InNamespace(k: Key, n: byte) {
    Namespace(k) == n
  }

  lemma IndexEncodable(cfg: Config, db: Db, k: Key)
    requires Structured(cfg, db) && k in db && IsIndex(k)
    ensures Encodable(k) && HasRecord(db, k.id) && IndexOf(k.id, Record(db, k.id)) == k && ValidId(k.id)
    ensures k.ClaimKey? ==> Record(db, k.id).state.Claimed? && Record(db, k.id).claimExpiry == Some(k.at)
    ensures k.CommittedKey? ==> Record(db, k.id).state.Committed? && Record(db, k.id).committedAt == Some(k.at)
    ensures k.PendingKey? ==> Record(db, k.id).state.Pending?
  {
    StoredWell(cfg, db, k.id);
    assert Fits(cfg, RecordKey(k.id), db[RecordKey(k.id)]);
    hide Linked, ValidIdentifier;
  }

  method ScanIndex(cfg: Config, db: Db, n: byte) returns (ks: seq<Key>)
    requires Structured(cfg, db) && 4 <= n <= 6
    ensures Sorted(ks) && forall k :: k in ks <==> k in db && InNamespace(k, n)
    ensures forall i :: 0 <= i < |ks| ==> ks[i] in db && IsIndex(ks[i]) && Namespace(ks[i]) == n
  {
    var s := set k | k in db && InNamespace(k, n);
    hide Structured;
    forall k | k in s ensures Encodable(k) { IndexEncodable(cfg, db, k); }
    ks := SortedKeys(s);
    forall i | 0 <= i < |ks| ensures ks[i] in db && IsIndex(ks[i]) && Namespace(ks[i]) == n { assert ks[i] in ks; }
  }

  /** A sorted listing cut after its i-th key is the first i of any part of it that lies wholly before the cut. */
  lemma PrefixIsFirst(part: set<Key>, ks: seq<Key>, i: nat, limit: nat)
    requires Sorted(ks) && i <= |ks| && i <= limit
    requires forall k :: k in part ==> k in ks
    requires forall j :: 0 <= j < i ==> ks[j] in part
    requires i < limit ==> forall j :: i <= j < |ks| ==> ks[j] !in part
    ensures FirstKeys(part, ks[..i], limit)
  {
    hide Encode, Less, Encodable;
    assert forall l :: 0 <= l < i ==> ks[..i][l] == ks[l];
    forall k | k in part ensures Encodable(k) { var j :| 0 <= j < |ks| && ks[j] == k; }
    forall k, j | k in part && k !in ks[..i] && 0 <= j < i ensures Less(Encode(ks[j]), Encode(k)) {
      var l :| 0 <= l < |ks| && ks[l] == k;
    }
    forall k | k in part && i < limit ensures k in ks[..i] {
      var l :| 0 <= l < |ks| && ks[l] == k;
      assert ks[..i][l] == k;
    }
  }

  // ---------------------------------------------------------------- operations that restate one record

  /** Deleting the old index entry, writing the record and its new one, and moving the reserve is one Restate. */
  function RestateOps(ops: Ops, id: bytes, old': Stored, r: Stored): Ops {
    var o1 := ops[IndexOf(id, old') := None][RecordKey(id) := Some(Rec(r))][IndexOf(id, r) := Some(Empty)];
    if r.state.Pending? then o1[ReserveKey(id) := Some(JournalModel.Reserve)]
    else if old'.state.Pending? then o1[ReserveKey(id) := None]
    else o1
  }

  /** The same four changes as steps on the database itself. */
  function RestatePuts(d: Db, id: bytes, old': Stored, r: Stored): Db {
    var d3 := Put(Put(Put(d, IndexOf(id, old'), None), RecordKey(id), Some(Rec(r))), IndexOf(id, r), Some(Empty));
    if r.state.Pending? then Put(d3, ReserveKey(id), Some(JournalModel.Reserve))
    else if old'.state.Pending? then Put(d3, ReserveKey(id), None)
    else d3
  }

  lemma RestatePutsIs(d: Db, id: bytes, r: Stored)
    requires HasRecord(d, id) && (ReserveKey(id) in d ==> Record(d, id).state.Pending?)
    ensures RestatePuts(d, id, Record(d, id), r) == Restate(d, id, r)
  {
  }

  lemma RestateOpsPut(db: Db, ops: Ops, id: bytes, old': Stored, r: Stored)
    ensures Apply(db, RestateOps(ops, id, old', r)) == RestatePuts(Apply(db, ops), id, old', r)
  {
    hide Apply, Put, IndexOf;
    var o1 := ops[IndexOf(id, old') := None];
    var o2 := o1[RecordKey(id) := Some(Rec(r))];
    var o3 := o2[IndexOf(id, r) := Some(Empty)];
    ApplyOne(db, ops, IndexOf(id, old'), None);
    ApplyOne(db, o1, RecordKey(id), Some(Rec(r)));
    ApplyOne(db, o2, IndexOf(id, r), Some(Empty));
    ApplyOne(db, o3, ReserveKey(id), Some(JournalModel.Reserve));
    ApplyOne(db, o3, ReserveKey(id), None);
  }

  lemma RestateOpsApply(db: Db, ops: Ops, id: bytes, r: Stored)
    requires var d := Apply(db, ops);
             HasRecord(d, id) && (ReserveKey(id) in d ==> Record(d, id).state.Pending?)
    ensures Apply(db, RestateOps(ops, id, Record(Apply(db, ops), id), r)) == Restate(Apply(db, ops), id, r)
  {
    hide Apply, Restate, RestateOps, RestatePuts;
    RestateOpsPut(db, ops, id, Record(Apply(db, ops), id), r);
    RestatePutsIs(Apply(db, ops), id, r);
  }

  lemma MoveAllSnoc(cfg: Config, db: Db, ids: seq<bytes>, id: bytes, move: Move)
    ensures MoveAll(cfg, db, ids + [id], move) == MoveOne(cfg, MoveAll(cfg, db, ids, move), id, move)
  {
    assert (ids + [id])[..|ids|] == ids;
  }

  ghost predicate EncodableOps(ops: Ops) {
    forall k :: k in ops ==> Encodable(k)
  }

  /** One loop step of expiring, claiming, renewing or committing. */
  lemma MoveStep(cfg: Config, db: Db, ops: Ops, ids: seq<bytes>, id: bytes, move: Move)
    requires Structured(cfg, db) && AllMovable(db, ids, move) && id !in ids && EncodableOps(ops)
    requires HasRecord(db, id) && Movable(Record(db, id), move) && Apply(db, ops) == MoveAll(cfg, db, ids, move)
    ensures AllMovable(db, ids + [id], move)
    ensures var next := RestateOps(ops, id, Record(db, id), Moved(cfg, id, Record(db, id), move));
            Apply(db, next) == MoveAll(cfg, db, ids + [id], move) && EncodableOps(next)
  {
    hide Linked, Typed, Restate, Apply, Moved, MoveAll, Movable, RestateOps;
    var r := Moved(cfg, id, Record(db, id), move);
    MoveAllStructured(cfg, db, ids, move);
    MoveAllSnoc(cfg, db, ids, id, move);
    RestateOpsApply(db, ops, id, r);
    hide Indexed;
    StoredWell(cfg, db, id);
    RecordHasValidId(cfg, db, id);
    MovedIsWell(cfg, id, Record(db, id), move);
    RestateOpsEncodable(cfg, ops, id, Record(db, id), r);
  }

  lemma RecordHasValidId(cfg: Config, db: Db, id: bytes)
    requires Structured(cfg, db) && HasRecord(db, id)
    ensures ValidId(id)
  {
    assert Fits(cfg, RecordKey(id), db[RecordKey(id)]);
  }

  lemma RestateOpsEncodable(cfg: Config, ops: Ops, id: bytes, r: Stored, r': Stored)
    requires EncodableOps(ops) && ValidId(id) && WellStored(cfg, id, r) && WellStored(cfg, id, r')
    ensures EncodableOps(RestateOps(ops, id, r, r'))
  {
    hide ValidIdentifier, Hex;
  }

  ghost predicate SameCounts(db: Db, db': Db) {
    forall p :: 0 <= p < 4 ==> |OfPriority(db', p)| == |OfPriority(db, p)|
  }

  lemma MovesKeepCounts(cfg: Config, db: Db, ids: seq<bytes>, move: Move)
    requires Structured(cfg, db) && AllMovable(db, ids, move)
    ensures SameCounts(db, MoveAll(cfg, db, ids, move))
  {
    hide Structured, AllMovable;
    var db' := MoveAll(cfg, db, ids, move);
    MoveAllStructured(cfg, db, ids, move);
    hide MoveAll;
    forall p ensures OfPriority(db', p) == OfPriority(db, p) {
      forall k ensures k in OfPriority(db', p) <==> k in OfPriority(db, p) {
        if k.RecordKey? { assert HasRecord(db', k.id) <==> HasRecord(db, k.id); }
      }
    }
  }

  // ---------------------------------------------------------------- expireClaims

  ghost function DueKeys(db: Db, now: int): set<Key> {
    set k | k in db && k.ClaimKey? && k.at <= now
  }

  lemma LaterClaimsAreLater(a: Key, b: Key)
    requires a.ClaimKey? && b.ClaimKey? && Encodable(a) && Encodable(b) && |a.id| == |b.id|
    requires Less(Encode(a), Encode(b))
    ensures a.at <= b.at
  {
    ClaimKeyOrder(a.at, a.id, b.at, b.id);
  }

  lemma CutAtNow(cfg: Config, db: Db, ks: seq<Key>, i: nat, now: int)
    requires Structured(cfg, db) && Sorted(ks) && i < |ks| && now < (if ks[i].ClaimKey? then ks[i].at else now)
    requires forall j :: 0 <= j < |ks| ==> ks[j] in db && ks[j].ClaimKey?
    ensures forall j :: i <= j < |ks| ==> now < ks[j].at
  {
    hide Structured, Encode, Less, Encodable;
    forall j | i <= j < |ks| ensures now < ks[j].at {
      IndexEncodable(cfg, db, ks[i]);
      IndexEncodable(cfg, db, ks[j]);
      if i < j { LaterClaimsAreLater(ks[i], ks[j]); }
    }
  }

  /**
   * The overlay of an expiry sweep: the earliest due claims, at most `limit`, back to pending; no due one is skipped.
   */
  method ExpireClaims(cfg: Config, db: Db, limit: nat, now: int) returns (ops: Ops, expired: nat, ghost ks: seq<Key>)
    requires Structured(cfg, db) && 1 <= limit
    ensures FirstKeys(DueKeys(db, now), ks, limit) && |ks| == expired <= limit
    ensures forall i :: 0 <= i < |ks| ==> IsIndex(ks[i])
    ensures AllMovable(db, KeyIds(ks), Expire) && forall i :: 0 <= i < |ks| ==> Due(db, KeyIds(ks)[i], now)
    ensures Apply(db, ops) == MoveAll(cfg, db, KeyIds(ks), Expire) && EncodableOps(ops)
  {
    hide Structured, Apply, MoveAll, FirstKeys, Encodable, Encode, Less, HasRecord, Record, Movable, RestateOps, Moved;
    ops, expired := map[], 0;
    ApplyNothing(db);
    NoMoves(cfg, db, Expire);
    ghost var ids: seq<bytes> := [];
    var all := ScanIndex(cfg, db, 5);
    while expired < |all| && expired < limit
      invariant expired <= |all| && expired <= limit && |ids| == expired
      invariant forall j :: 0 <= j < expired ==> all[j].at <= now && ids[j] == all[j].id
      invariant AllMovable(db, ids, Expire) && EncodableOps(ops)
      invariant Apply(db, ops) == MoveAll(cfg, db, ids, Expire)
      invariant forall j :: 0 <= j < expired ==> Due(db, ids[j], now)
      decreases |all| - expired
    {
      var k := all[expired];
      if now < k.at { break; }
      IndexEncodable(cfg, db, k);
      IndexKeyIsNew(cfg, db, all, expired, ids);
      DueIsMovable(db, k, now);
      MoveStep(cfg, db, ops, ids, k.id, Expire);
      var stored := Record(db, k.id);
      ghost var before := ops;
      var freed := stored.(state := Pending, claimOwner := [], claimToken := None, claimExpiry := None);
      ops := ops[k := None];
      ops := ops[RecordKey(k.id) := Some(Rec(freed))];
      ops := ops[PendingKey(freed.priority, freed.received, k.id) := Some(Empty)];
      ops := ops[ReserveKey(k.id) := Some(JournalModel.Reserve)];
      ExpireOps(cfg, before, k, stored);
      ids := ids + [k.id];
      expired := expired + 1;
    }
    if expired < |all| && expired < limit { CutAtNow(cfg, db, all, expired, now); }
    ks := all[..expired];
    assert forall k :: k in DueKeys(db, now) ==> k in all;
    PrefixIsFirst(DueKeys(db, now), all, expired, limit);
    assert KeyIds(ks) == ids;
  }

  lemma ExpireOps(cfg: Config, ops: Ops, k: Key, r: Stored)
    requires k.ClaimKey? && r.state.Claimed? && r.claimExpiry == Some(k.at)
    ensures var freed := r.(state := Pending, claimOwner := [], claimToken := None, claimExpiry := None);
            ops[k := None][RecordKey(k.id) := Some(Rec(freed))][PendingKey(freed.priority, freed.received, k.id) := Some(Empty)]
               [ReserveKey(k.id) := Some(JournalModel.Reserve)]
            == RestateOps(ops, k.id, r, Moved(cfg, k.id, r, Expire))
  {
  }

  lemma NoMoves(cfg: Config, db: Db, move: Move)
    ensures MoveAll(cfg, db, [], move) == db
  {
  }

  lemma DueIsMovable(db: Db, k: Key, now: int)
    requires k.ClaimKey? && k.at <= now && HasRecord(db, k.id) && Record(db, k.id).state.Claimed?
    requires Record(db, k.id).claimExpiry == Some(k.at)
    ensures Movable(Record(db, k.id), Expire) && Due(db, k.id, now)
  {
  }

  /** Sorted index keys name each record once. */
  lemma IndexKeyIsNew(cfg: Config, db: Db, ks: seq<Key>, n: nat, ids: seq<bytes>)
    requires Structured(cfg, db) && Sorted(ks) && n < |ks|
    requires (forall j :: 0 <= j < |ks| ==> ks[j] in db && IsIndex(ks[j]))
    requires |ids| == n && forall j :: 0 <= j < n ==> ids[j] == ks[j].id
    ensures ks[n].id !in ids
  {
    hide Structured, Encode, Less, Encodable;
    if ks[n].id in ids {
      var j :| 0 <= j < n && ids[j] == ks[n].id;
      IndexEncodable(cfg, db, ks[j]);
      IndexEncodable(cfg, db, ks[n]);
      LessIrreflexive(Encode(ks[n]));
    }
  }

  // ---------------------------------------------------------------- claiming

  /** What a worker receives for a claimed record. */
  datatype Handout = Handout(envelope: Envelope, priority: nat, semantic: bytes, token: Option<Token>, owner: bytes,
                             attempt: nat, expiresAt: Option<int>)

  function Hand(r: Stored): Handout {
    Handout(r.envelope, r.priority, r.semantic, r.claimToken, r.claimOwner, r.attempt, r.claimExpiry)
  }

  ghost function PendingKeys(db: Db): set<Key> {
    set k | k in db && k.PendingKey?
  }

  ghost predicate Handed(cfg: Config, db: Db, ids: seq<bytes>, move: Move, hs: seq<Handout>) {
    |hs| == |ids| && forall i :: 0 <= i < |ids| ==>
                       HasRecord(db, ids[i]) && hs[i] == Hand(Moved(cfg, ids[i], Record(db, ids[i]), move))
  }

  /**
   * The overlay of a claim: the first `limit` pending records in index order, unless an attempt counter is exhausted.
   */
  method ClaimPending(cfg: Config, db: Db, limit: nat, worker: bytes, expiry: int)
    returns (ops: Ops, claimed: seq<Handout>, exhausted: bool, ghost ks: seq<Key>)
    requires Structured(cfg, db) && ValidOwner(worker) && ValidTime(expiry)
    ensures exhausted ==>
              exists id :: HasRecord(db, id) && Record(db, id).state.Pending? && Record(db, id).attempt == MAX_ATTEMPT
    ensures !exhausted ==> FirstKeys(PendingKeys(db), ks, limit)
    ensures forall i :: 0 <= i < |ks| ==> IsIndex(ks[i])
    ensures AllMovable(db, KeyIds(ks), Claim(worker, expiry))
    ensures Handed(cfg, db, KeyIds(ks), Claim(worker, expiry), claimed)
    ensures Apply(db, ops) == MoveAll(cfg, db, KeyIds(ks), Claim(worker, expiry)) && EncodableOps(ops)
  {
    hide Structured, Apply, MoveAll, FirstKeys, Encodable, Encode, Less, Movable, RestateOps, Moved, ValidIdentifier,
         Hand;
    ghost var move := Claim(worker, expiry);
    ops, claimed, exhausted := map[], [], false;
    ApplyNothing(db);
    NoMoves(cfg, db, move);
    ghost var ids: seq<bytes> := [];
    var all := ScanIndex(cfg, db, 4);
    assert forall k :: k in PendingKeys(db) ==> k in all;
    while |claimed| < |all| && |claimed| < limit
      invariant |claimed| <= |all| && |claimed| <= limit && |ids| == |claimed|
      invariant forall j :: 0 <= j < |ids| ==> ids[j] == all[j].id
      invariant AllMovable(db, ids, move) && EncodableOps(ops) && Handed(cfg, db, ids, move, claimed)
      invariant Apply(db, ops) == MoveAll(cfg, db, ids, move)
      decreases |all| - |claimed|
    {
      var k := all[|claimed|];
      IndexEncodable(cfg, db, k);
      var stored := Record(db, k.id);
      if stored.attempt == MAX_ATTEMPT {
        exhausted := true;
        break;
      }
      IndexKeyIsNew(cfg, db, all, |claimed|, ids);
      StoredWell(cfg, db, k.id);
      PendingIsMovable(stored, worker, expiry);
      MoveStep(cfg, db, ops, ids, k.id, move);
      ghost var before := ops;
      var attempt := stored.attempt + 1;
      var taken := stored.(state := Claimed, attempt := attempt, claimOwner := worker, claimExpiry := Some(expiry),
                           claimToken := Some(Token(cfg.owner, worker, k.id, attempt, expiry)));
      ops := ops[ReserveKey(k.id) := None];
      ops := ops[k := None];
      ops := ops[ClaimKey(expiry, k.id) := Some(Empty)];
      ops := ops[RecordKey(k.id) := Some(Rec(taken))];
      ClaimOps(cfg, before, k, stored, worker, expiry);
      claimed := claimed + [Hand(taken)];
      ids := ids + [k.id];
    }
    ks := all[..|claimed|];
    forall k | k in PendingKeys(db) ensures Encodable(k) { IndexEncodable(cfg, db, k); }
    if !exhausted { PrefixIsFirst(PendingKeys(db), all, |claimed|, limit); }
    assert KeyIds(ks) == ids;
  }

  lemma PendingIsMovable(r: Stored, worker: bytes, expiry: int)
    requires r.state.Pending? && r.attempt < MAX_ATTEMPT && ValidOwner(worker) && ValidTime(expiry)
    ensures Movable(r, Claim(worker, expiry))
  {
  }

  lemma ClaimOps(cfg: Config, ops: Ops, k: Key, r: Stored, worker: bytes, expiry: int)
    requires k.PendingKey? && r.state.Pending? && IndexOf(k.id, r) == k
    ensures var taken := r.(state := Claimed, attempt := r.attempt + 1, claimOwner := worker, claimExpiry := Some(expiry),
                            claimToken := Some(Token(cfg.owner, worker, k.id, r.attempt + 1, expiry)));
            taken == Moved(cfg, k.id, r, Claim(worker, expiry)) &&
            ops[ReserveKey(k.id) := None][k := None][ClaimKey(expiry, k.id) := Some(Empty)][RecordKey(k.id) := Some(Rec(taken))]
            == RestateOps(ops, k.id, r, taken)
  {
  }

  // ---------------------------------------------------------------- renewing and committing

  /** A claim as a caller presents it; a token of the wrong form is None. */
  datatype Presentation = Presentation(id: bytes, token: Option<Token>)

  /** Already committed under this very token: a lost response, nothing left to do. */
  predicate Satisfied(db: Db, c: Presentation) {
    HasRecord(db, c.id) && Record(db, c.id).state.Committed? && c.token.Some? && Record(db, c.id).claimToken == c.token
  }

  predicate Good(db: Db, c: Presentation, now: int) {
    c.token.Some? && ValidId(c.id) && (Satisfied(db, c) || Honoured(db, ClaimRef(c.id, c.token.value), now))
  }

  ghost predicate AllGood(db: Db, cs: seq<Presentation>, now: int) {
    && (forall i :: 0 <= i < |cs| ==> Good(db, cs[i], now))
    && (forall i, j :: 0 <= i < j < |cs| ==> cs[i].id != cs[j].id)
  }

  /** The presented claims that are still claims. */
  ghost function Outstanding(db: Db, cs: seq<Presentation>): (held: seq<ClaimRef>)
    ensures forall c :: c in held ==> Presentation(c.id, Some(c.token)) in cs
  {
    if cs == [] then []
    else
      var c := cs[|cs| - 1];
      Outstanding(db, cs[..|cs| - 1]) + if Satisfied(db, c) || c.token.None? then [] else [ClaimRef(c.id, c.token.value)]
  }

  lemma OutstandingSnoc(db: Db, cs: seq<Presentation>, i: nat)
    requires i < |cs|
    ensures Outstanding(db, cs[..i + 1])
            == Outstanding(db, cs[..i]) + if Satisfied(db, cs[i]) || cs[i].token.None? then [] else [ClaimRef(cs[i].id, cs[i].token.value)]
  {
    assert cs[..i + 1][..i] == cs[..i];
  }

  lemma NotYetSeen(db: Db, cs: seq<Presentation>, i: nat)
    requires i < |cs| && forall j :: 0 <= j < i ==> cs[j].id != cs[i].id
    ensures cs[i].id !in Ids(Outstanding(db, cs[..i]))
  {
    var held := Outstanding(db, cs[..i]);
    forall l | 0 <= l < |held| ensures held[l].id != cs[i].id {
      assert held[l] in held;
      var j :| 0 <= j < i && cs[..i][j] == Presentation(held[l].id, Some(held[l].token));
    }
  }

  /** The overlay of a renewal or a commit, or the first reason to reject the whole batch. */
  ghost predicate Batched(cfg: Config, db: Db, cs: seq<Presentation>, now: int, move: Move, ops: Ops) {
    && (forall i :: 0 <= i < |Outstanding(db, cs)| ==> Honoured(db, Outstanding(db, cs)[i], now))
    && AllMovable(db, Ids(Outstanding(db, cs)), move)
    && Apply(db, ops) == MoveAll(cfg, db, Ids(Outstanding(db, cs)), move)
    && EncodableOps(ops)
  }

  lemma EmptyBatch(cfg: Config, db: Db, cs: seq<Presentation>, now: int, move: Move)
    ensures Batched(cfg, db, cs[..0], now, move, map[])
  {
    ApplyNothing(db);
    hide Apply;
  }

  lemma SkipStep(cfg: Config, db: Db, cs: seq<Presentation>, i: nat, now: int, move: Move, ops: Ops)
    requires i < |cs| && Batched(cfg, db, cs[..i], now, move, ops) && Satisfied(db, cs[i])
    ensures Batched(cfg, db, cs[..i + 1], now, move, ops)
  {
    hide Outstanding, Apply, MoveAll, EncodableOps;
    OutstandingSnoc(db, cs, i);
    assert Outstanding(db, cs[..i]) + [] == Outstanding(db, cs[..i]);
  }

  lemma OutstandingNext(db: Db, cs: seq<Presentation>, i: nat)
    requires i < |cs| && !Satisfied(db, cs[i]) && cs[i].token.Some? && forall j :: 0 <= j < i ==> cs[j].id != cs[i].id
    ensures Outstanding(db, cs[..i + 1]) == Outstanding(db, cs[..i]) + [ClaimRef(cs[i].id, cs[i].token.value)]
    ensures Ids(Outstanding(db, cs[..i + 1])) == Ids(Outstanding(db, cs[..i])) + [cs[i].id]
    ensures cs[i].id !in Ids(Outstanding(db, cs[..i]))
  {
    hide Outstanding, Satisfied;
    OutstandingSnoc(db, cs, i);
    NotYetSeen(db, cs, i);
  }

  lemma BatchStep(cfg: Config, db: Db, cs: seq<Presentation>, i: nat, now: int, move: Move, ops: Ops)
    requires Structured(cfg, db) && i < |cs| && Batched(cfg, db, cs[..i], now, move, ops)
    requires cs[i].token.Some? && Honoured(db, ClaimRef(cs[i].id, cs[i].token.value), now)
    requires Movable(Record(db, cs[i].id), move)
    requires forall j :: 0 <= j < i ==> cs[j].id != cs[i].id
    ensures Batched(cfg, db, cs[..i + 1], now, move,
                    RestateOps(ops, cs[i].id, Record(db, cs[i].id), Moved(cfg, cs[i].id, Record(db, cs[i].id), move)))
  {
    HonouredOutstanding(db, cs[i], now);
    hide Structured, Outstanding, Apply, MoveAll, RestateOps, Moved, Movable, Satisfied, Honoured, Record, HasRecord,
         EncodableOps, AllMovable;
    var c := ClaimRef(cs[i].id, cs[i].token.value);
    OutstandingNext(db, cs, i);
    MoveStep(cfg, db, ops, Ids(Outstanding(db, cs[..i])), c.id, move);
    AllHonoured(db, Outstanding(db, cs[..i]), c, now);
  }

  lemma AllHonoured(db: Db, held: seq<ClaimRef>, c: ClaimRef, now: int)
    requires (forall i :: 0 <= i < |held| ==> Honoured(db, held[i], now)) && Honoured(db, c, now)
    ensures forall i :: 0 <= i < |held| + 1 ==> Honoured(db, (held + [c])[i], now)
  {
    hide Honoured;
  }

  lemma HonouredOutstanding(db: Db, c: Presentation, now: int)
    requires c.token.Some? && Honoured(db, ClaimRef(c.id, c.token.value), now)
    ensures !Satisfied(db, c) && HasRecord(db, c.id)
  {
  }

  lemma RenewOps(cfg: Config, ops: Ops, id: bytes, r: Stored, expiry: int)
    requires r.state.Claimed? && r.claimExpiry.Some?
    ensures var r' := r.(claimExpiry := Some(expiry), claimToken := Some(Token(cfg.owner, r.claimOwner, id, r.attempt, expiry)));
            r' == Moved(cfg, id, r, Renew(expiry)) &&
            ops[ClaimKey(r.claimExpiry.value, id) := None][ClaimKey(expiry, id) := Some(Empty)][RecordKey(id) := Some(Rec(r'))]
            == RestateOps(ops, id, r, r')
  {
  }

  lemma CommitOps(cfg: Config, ops: Ops, id: bytes, r: Stored, now: int)
    requires r.state.Claimed? && r.claimExpiry.Some?
    ensures var r' := r.(state := Committed, committedAt := Some(now), claimOwner := [], claimExpiry := None);
            r' == Moved(cfg, id, r, Commit(now)) &&
            ops[ClaimKey(r.claimExpiry.value, id) := None][RecordKey(id) := Some(Rec(r'))][CommittedKey(now, id) := Some(Empty)]
            == RestateOps(ops, id, r, r')
  {
  }

  /** RenewClaims up to its commit: every member checked in order, the first bad one rejects them all. */
  method RenewAll(cfg: Config, db: Db, cs: seq<Presentation>, now: int, expiry: int)
    returns (ops: Ops, renewed: seq<Handout>, error: Option<Error>)
    requires Structured(cfg, db) && ValidTime(expiry)
    ensures error.None? <==> AllGood(db, cs, now)
    ensures error.Some? ==> error.value == InvalidInput || error.value == StaleClaim
    ensures error.None? ==> Batched(cfg, db, cs, now, Renew(expiry), ops) &&
                            Handed(cfg, db, Ids(Outstanding(db, cs)), Renew(expiry), renewed)
  {
    hide Structured, Batched, ValidId, RestateOps, Moved, Hand, Outstanding;
    ghost var move := Renew(expiry);
    ops, renewed, error := map[], [], None;
    EmptyBatch(cfg, db, cs, now, move);
    NothingOutstanding(db, cs);
    var seen: set<bytes> := {};
    for i := 0 to |cs|
      invariant error.None? && AllGood(db, cs[..i], now) && Batched(cfg, db, cs[..i], now, move, ops)
      invariant forall id :: id in seen <==> exists j :: 0 <= j < i && cs[j].id == id
      invariant Handed(cfg, db, Ids(Outstanding(db, cs[..i])), move, renewed)
    {
      var c := cs[i];
      if !ValidId(c.id) || c.token.None? || c.id in seen { return ops, renewed, Some(InvalidInput); }
      seen := seen + {c.id};
      if !HasRecord(db, c.id) { return ops, renewed, Some(StaleClaim); }
      var stored := Record(db, c.id);
      OutstandingSnoc(db, cs, i);
      if stored.state.Committed? {
        if stored.claimToken != c.token { return ops, renewed, Some(StaleClaim); }
        SkipStep(cfg, db, cs, i, now, move, ops);
        assert Outstanding(db, cs[..i]) + [] == Outstanding(db, cs[..i]);
        continue;
      }
      if !stored.state.Claimed? || stored.claimToken != c.token { return ops, renewed, Some(StaleClaim); }
      ClaimedHasExpiry(cfg, db, c.id);
      if now >= stored.claimExpiry.value { return ops, renewed, Some(StaleClaim); }
      BatchStep(cfg, db, cs, i, now, move, ops);
      RenewOps(cfg, ops, c.id, stored, expiry);
      var again := stored.(claimExpiry := Some(expiry),
                           claimToken := Some(Token(cfg.owner, stored.claimOwner, c.id, stored.attempt, expiry)));
      ops := ops[ClaimKey(stored.claimExpiry.value, c.id) := None];
      ops := ops[ClaimKey(expiry, c.id) := Some(Empty)];
      ops := ops[RecordKey(c.id) := Some(Rec(again))];
      renewed := renewed + [Hand(again)];
    }
    assert cs[..|cs|] == cs;
  }

  /** MarkCommittedBatch up to its commit. */
  method CommitAll(cfg: Config, db: Db, cs: seq<Presentation>, now: int) returns (ops: Ops, error: Option<Error>)
    requires Structured(cfg, db) && ValidTime(now)
    ensures error.None? <==> AllGood(db, cs, now)
    ensures error.Some? ==> error.value == InvalidInput || error.value == StaleClaim
    ensures error.None? ==> Batched(cfg, db, cs, now, Commit(now), ops)
  {
    hide Structured, Batched, ValidId, RestateOps, Moved;
    ghost var move := Commit(now);
    ops, error := map[], None;
    EmptyBatch(cfg, db, cs, now, move);
    var seen: set<bytes> := {};
    for i := 0 to |cs|
      invariant error.None? && AllGood(db, cs[..i], now) && Batched(cfg, db, cs[..i], now, move, ops)
      invariant forall id :: id in seen <==> exists j :: 0 <= j < i && cs[j].id == id
    {
      var c := cs[i];
      if !ValidId(c.id) || c.token.None? || c.id in seen { return ops, Some(InvalidInput); }
      seen := seen + {c.id};
      if !HasRecord(db, c.id) { return ops, Some(StaleClaim); }
      var stored := Record(db, c.id);
      if stored.state.Committed? {
        if stored.claimToken != c.token { return ops, Some(StaleClaim); }
        SkipStep(cfg, db, cs, i, now, move, ops);
        continue;
      }
      if !stored.state.Claimed? || stored.claimToken != c.token { return ops, Some(StaleClaim); }
      ClaimedHasExpiry(cfg, db, c.id);
      if now >= stored.claimExpiry.value { return ops, Some(StaleClaim); }
      BatchStep(cfg, db, cs, i, now, move, ops);
      CommitOps(cfg, ops, c.id, stored, now);
      var settled := stored.(state := Committed, committedAt := Some(now), claimOwner := [], claimExpiry := None);
      ops := ops[ClaimKey(stored.claimExpiry.value, c.id) := None];
      ops := ops[RecordKey(c.id) := Some(Rec(settled))];
      ops := ops[CommittedKey(now, c.id) := Some(Empty)];
    }
    assert cs[..|cs|] == cs;
  }

  lemma NothingOutstanding(db: Db, cs: seq<Presentation>)
    ensures Outstanding(db, cs[..0]) == []
  {
  }

  lemma ClaimedHasExpiry(cfg: Config, db: Db, id: bytes)
    requires Structured(cfg, db) && HasRecord(db, id) && Record(db, id).state.Claimed?
    ensures Record(db, id).claimExpiry.Some?
  {
    StoredWell(cfg, db, id);
  }

  // ---------------------------------------------------------------- adoption

  /** The claims a worker already holds and has not let lapse. */
  ghost function HeldKeys(db: Db, owner: bytes, now: int): set<Key> {
    set k | k in db && k.ClaimKey? && now < k.at && HasRecord(db, k.id) && Record(db, k.id).claimOwner == owner
  }

  /** Which of the first `i` keys of a sorted list were taken, in order. */
  ghost predicate Taking(all: seq<Key>, wanted: set<Key>, i: nat, ks: seq<Key>)
    requires i <= |all|
  {
    && (forall j :: 0 <= j < |ks| ==> ks[j] in wanted && Encodable(ks[j]))
    && (forall j, l :: 0 <= j < l < |ks| ==> Encodable(ks[j]) && Encodable(ks[l]) && Less(Encode(ks[j]), Encode(ks[l])))
    && (forall j, l :: 0 <= j < |ks| && i <= l < |all| && Encodable(all[l]) ==>
          Encodable(ks[j]) && Less(Encode(ks[j]), Encode(all[l])))
    && (forall l :: 0 <= l < i && all[l] in wanted ==> all[l] in ks)
  }

  lemma TakingSkips(all: seq<Key>, wanted: set<Key>, i: nat, ks: seq<Key>)
    requires i < |all| && Taking(all, wanted, i, ks) && all[i] !in wanted
    ensures Taking(all, wanted, i + 1, ks)
  {
    hide Encodable, Encode, Less;
  }

  lemma TakingTakes(all: seq<Key>, wanted: set<Key>, i: nat, ks: seq<Key>)
    requires i < |all| && Taking(all, wanted, i, ks) && all[i] in wanted && Sorted(all)
    ensures Taking(all, wanted, i + 1, ks + [all[i]])
  {
    hide Encodable, Encode, Less;
    assert (ks + [all[i]])[|ks|] == all[i];
  }

  lemma TakenAreFirst(all: seq<Key>, wanted: set<Key>, i: nat, ks: seq<Key>, limit: nat)
    requires i <= |all| && Taking(all, wanted, i, ks) && Sorted(all) && |ks| <= limit && (i < |all| ==> |ks| == limit)
    requires forall k :: k in wanted ==> k in all
    ensures FirstKeys(wanted, ks, limit)
  {
    hide Encodable, Encode, Less;
    forall k, j | k in wanted && k !in ks && 0 <= j < |ks| ensures Less(Encode(ks[j]), Encode(k)) {
      var l :| 0 <= l < |all| && all[l] == k;
    }
    forall k | k in wanted ensures Encodable(k) { }
  }

  /**
   * AdoptClaims' loop: the worker's own unexpired claims, soonest to lapse first, with the very tokens they were
   * issued.
   */
  method AdoptAll(cfg: Config, db: Db, owner: bytes, limit: nat, now: int) returns (adopted: seq<Handout>, ks: seq<Key>)
    requires Structured(cfg, db)
    ensures FirstKeys(HeldKeys(db, owner, now), ks, limit) && |adopted| == |ks|
    ensures forall i :: 0 <= i < |ks| ==>
              IsIndex(ks[i]) && HasRecord(db, ks[i].id) && adopted[i] == Hand(Record(db, ks[i].id)) &&
                                          Current(db, ks[i].id,
                                                  Token(cfg.owner, owner, ks[i].id, Record(db, ks[i].id).attempt,
                                                        ks[i].at))
  {
    hide Structured, Encodable, Encode, Less, Hand, Current, Taking, Sorted;
    adopted, ks := [], [];
    var all := ScanIndex(cfg, db, 5);
    ghost var held := HeldKeys(db, owner, now);
    TakingNothing(all, held);
    var i := 0;
    while i < |all| && |adopted| < limit
      invariant i <= |all| && |adopted| == |ks| <= limit && Taking(all, held, i, ks)
      invariant forall j :: 0 <= j < |ks| ==>
                  IsIndex(ks[j]) && HasRecord(db, ks[j].id) && adopted[j] == Hand(Record(db, ks[j].id)) &&
                  Current(db, ks[j].id, Token(cfg.owner, owner, ks[j].id, Record(db, ks[j].id).attempt, ks[j].at))
      decreases |all| - i
    {
      var k := all[i];
      HeldIsCurrent(cfg, db, k);
      var stored := Record(db, k.id);
      if now >= k.at || stored.claimOwner != owner {
        TakingSkips(all, held, i, ks);
        i := i + 1;
        continue;
      }
      TakingTakes(all, held, i, ks);
      adopted := adopted + [Hand(stored)];
      ks := ks + [k];
      i := i + 1;
    }
    TakenAreFirst(all, held, i, ks, limit);
  }

  lemma TakingNothing(all: seq<Key>, wanted: set<Key>)
    ensures Taking(all, wanted, 0, [])
  {
  }

  lemma HeldIsCurrent(cfg: Config, db: Db, k: Key)
    requires Structured(cfg, db) && k in db && k.ClaimKey?
    ensures HasRecord(db, k.id)
    ensures Current(db, k.id, Token(cfg.owner, Record(db, k.id).claimOwner, k.id, Record(db, k.id).attempt, k.at))
  {
    IndexEncodable(cfg, db, k);
    StoredWell(cfg, db, k.id);
  }
}
