/** Runs of the journal: every transition keeps the invariant, and only the newest token of a record works. */
module JournalEvents {
  import opened Basics
  import opened JournalKeys
  import opened JournalModel
  import opened JournalInvariant
  import opened JournalAppend
  import opened JournalAccount

  datatype ClaimRef = ClaimRef(id: bytes, token: Token)

  /** One atomic mutation of the journal. */
  datatype Event =
    | Admitted(batch: bytes, admissions: seq<Admission>)
    | Lapsed(ids: seq<bytes>)
    | Issued(ids: seq<bytes>, worker: bytes)
    | Renewed(claims: seq<ClaimRef>)
    | Settled(claims: seq<ClaimRef>)
    | Quarantined(claim: ClaimRef, reason: nat)
    | Compacted(ids: seq<bytes>)

  function Ids(claims: seq<ClaimRef>): (ids: seq<bytes>)
    ensures |ids| == |claims| && forall i :: 0 <= i < |claims| ==> ids[i] == claims[i].id
  {
    seq(|claims|, i requires 0 <= i < |claims| => claims[i].id)
  }

  /** safeAdd. */
  function SafeAdd(t: int, d: int): (r: Option<int>) {
    if !ValidTime(t) || d <= 0 || t > MAX_TIME - d then None else Some(t + d)
  }

  /** The token is the record's own and the claim has not lapsed. */
  predicate Honoured(db: Db, c: ClaimRef, now: int) {
    && HasRecord(db, c.id) && Record(db, c.id).state.Claimed?
    && Record(db, c.id).claimToken == Some(c.token)
    && Record(db, c.id).claimExpiry.Some? && now < Record(db, c.id).claimExpiry.value
  }

  predicate Due(db: Db, id: bytes, now: int) {
    && HasRecord(db, id) && Record(db, id).state.Claimed?
    && Record(db, id).claimExpiry.Some? && Record(db, id).claimExpiry.value <= now
  }

  predicate Expendable(cfg: Config, db: Db, id: bytes, now: int) {
    && HasRecord(db, id) && Record(db, id).state.Committed?
    && Record(db, id).committedAt.Some? && now > Record(db, id).committedAt.value + cfg.safetyDelay
  }

  /** Pending, with an attempt left. */
  predicate Claimable(db: Db, id: bytes) {
    HasRecord(db, id) && Record(db, id).state.Pending? && Record(db, id).attempt < MAX_ATTEMPT
  }

  ghost predicate Distinct(ids: seq<bytes>) {
    forall i, j :: 0 <= i < j < |ids| ==> ids[i] != ids[j]
  }

  ghost predicate Allowed(cfg: Config, db: Db, ev: Event, now: int) {
    && ValidTime(now)
    && match ev
       case Admitted(b, s) => Admissible(cfg, db, b, s)
       case Lapsed(ids) => Distinct(ids) && forall i :: 0 <= i < |ids| ==> Due(db, ids[i], now)
       case Issued(ids, worker) => Distinct(ids) && ValidOwner(worker) && SafeAdd(now, cfg.claimTTL).Some? &&
            forall i :: 0 <= i < |ids| ==> Claimable(db, ids[i])
       case Renewed(claims) => Distinct(Ids(claims)) && SafeAdd(now, cfg.claimTTL).Some? &&
            forall i :: 0 <= i < |claims| ==> Honoured(db, claims[i], now)
       case Settled(claims) => Distinct(Ids(claims)) && forall i :: 0 <= i < |claims| ==> Honoured(db, claims[i], now)
       case Quarantined(c, reason) => Honoured(db, c, now) && 1 <= reason <= 3
       case Compacted(ids) => Distinct(ids) && forall i :: 0 <= i < |ids| ==> Expendable(cfg, db, ids[i], now)
  }

  /** The move an event makes of the records it names, if it moves any. */
  function MoveOf(cfg: Config, ev: Event, now: int): Move {
    match ev
    case Issued(_, worker) => Claim(worker, now + cfg.claimTTL)
    case Renewed(_) => Renew(now + cfg.claimTTL)
    case Settled(_) => Commit(now)
    case _ => Expire
  }

  function MovedIds(ev: Event): seq<bytes> {
    match ev
    case Lapsed(ids) => ids
    case Issued(ids, _) => ids
    case Renewed(claims) => Ids(claims)
    case Settled(claims) => Ids(claims)
    case _ => []
  }

  function After(cfg: Config, db: Db, ev: Event, now: int): Db {
    match ev
    case Admitted(b, s) => Append(db, b, s)
    case Quarantined(c, reason) => if HasRecord(db, c.id) then QuarantineOne(db, c.id, reason, now) else db
    case Compacted(ids) => RemoveAll(db, ids)
    case _ => MoveAll(cfg, db, MovedIds(ev), MoveOf(cfg, ev, now))
  }

  // ---------------------------------------------------------------- the invariant over every event

  predicate Moves(ev: Event) {
    ev.Lapsed? || ev.Issued? || ev.Renewed? || ev.Settled?
  }

  lemma AllowedMoves(cfg: Config, db: Db, ev: Event, now: int)
    requires Structured(cfg, db) && Allowed(cfg, db, ev, now) && Moves(ev)
    ensures AllMovable(db, MovedIds(ev), MoveOf(cfg, ev, now))
  {
    hide Typed, Indexed, Linked, ValidIdentifier;
    var ids := MovedIds(ev);
    forall i | 0 <= i < |ids| ensures HasRecord(db, ids[i]) && Movable(Record(db, ids[i]), MoveOf(cfg, ev, now)) {
      if ev.Lapsed? { assert Due(db, ids[i], now); }
      if ev.Renewed? || ev.Settled? { assert Honoured(db, ev.claims[i], now); }
    }
  }

  /** Every mutation of the journal takes a structured state to a structured one. */
  lemma EventStructured(cfg: Config, db: Db, ev: Event, now: int)
    requires Structured(cfg, db) && Allowed(cfg, db, ev, now)
    ensures Structured(cfg, After(cfg, db, ev, now))
  {
    hide Structured, Admissible, AllMovable, Append, QuarantineOne, RemoveAll, MoveAll;
    match ev
    case Admitted(b, s) => AppendStructured(cfg, db, b, s);
    case Quarantined(c, reason) => QuarantineStructured(cfg, db, c.id, reason, now);
    case Compacted(ids) => RemoveAllStructured(cfg, db, ids);
    case _ =>
      AllowedMoves(cfg, db, ev, now);
      MoveAllStructured(cfg, db, MovedIds(ev), MoveOf(cfg, ev, now));
  }

  /** Apart from admission and the expiry sweep, nothing ever raises the account; renewing leaves it alone. */
  lemma EventDrains(cfg: Config, db: Db, ev: Event, now: int)
    requires Structured(cfg, db) && Allowed(cfg, db, ev, now) && !ev.Admitted? && !ev.Lapsed?
    ensures Total(After(cfg, db, ev, now), cfg.overhead) <= Total(db, cfg.overhead)
    ensures ev.Renewed? ==> Total(After(cfg, db, ev, now), cfg.overhead) == Total(db, cfg.overhead)
  {
    hide Structured, AllMovable, QuarantineOne, RemoveAll, MoveAll, Total;
    match ev
    case Quarantined(c, reason) => QuarantineDrains(cfg, db, c.id, reason, now);
    case Compacted(ids) => RemoveAllDrains(db, ids, cfg.overhead);
    case _ =>
      AllowedMoves(cfg, db, ev, now);
      MoveAllDrains(cfg, db, MovedIds(ev), MoveOf(cfg, ev, now));
  }

  // ---------------------------------------------------------------- what an event does to one record

  lemma EventOnRecord(cfg: Config, db: Db, ev: Event, now: int, id: bytes)
    requires Structured(cfg, db) && Allowed(cfg, db, ev, now) && HasRecord(db, id)
    requires HasRecord(After(cfg, db, ev, now), id)
    ensures Record(After(cfg, db, ev, now), id)
            == if id in MovedIds(ev) then Moved(cfg, id, Record(db, id), MoveOf(cfg, ev, now)) else Record(db, id)
  {
    hide Structured, Admissible, AllMovable, Append, Remove, RemoveAll, MoveAll, Moved;
    match ev
    case Admitted(b, s) => AppendRecord(cfg, db, b, s, id);
    case Quarantined(c, reason) => RemoveRecords(db, c.id, id);
    case Compacted(ids) => RemoveAllStructured(cfg, db, ids);
    case _ =>
      AllowedMoves(cfg, db, ev, now);
      MoveAllStructured(cfg, db, MovedIds(ev), MoveOf(cfg, ev, now));
  }

  lemma NewRecordIsPending(cfg: Config, db: Db, ev: Event, now: int, id: bytes)
    requires Structured(cfg, db) && Allowed(cfg, db, ev, now) && !HasRecord(db, id)
    requires HasRecord(After(cfg, db, ev, now), id)
    ensures Record(After(cfg, db, ev, now), id).state.Pending?
  {
    hide Structured, Admissible, AllMovable, Append, Remove, RemoveAll, MoveAll, Moved;
    match ev
    case Admitted(b, s) => AppendRecord(cfg, db, b, s, id);
    case Quarantined(c, reason) => RemoveRecords(db, c.id, id);
    case Compacted(ids) => RemoveAllStructured(cfg, db, ids);
    case _ =>
      AllowedMoves(cfg, db, ev, now);
      MoveAllStructured(cfg, db, MovedIds(ev), MoveOf(cfg, ev, now));
  }

  // ---------------------------------------------------------------- runs

  datatype Run = Run(states: seq<Db>, events: seq<Event>, times: seq<int>)

  /** A run of allowed mutations under a clock that never goes back. */
  ghost predicate IsRun(cfg: Config, run: Run) {
    && |run.states| == |run.events| + 1 && |run.times| == |run.events|
    && (forall i :: 0 <= i < |run.events| ==>
         Allowed(cfg, run.states[i], run.events[i], run.times[i]) &&
         run.states[i + 1] == After(cfg, run.states[i], run.events[i], run.times[i]))
    && (forall i, j :: 0 <= i <= j < |run.times| ==> run.times[i] <= run.times[j])
  }

  lemma {:induction false} EveryStateIsStructured(cfg: Config, run: Run, n: nat)
    requires IsRun(cfg, run) && n <= |run.events| && Structured(cfg, run.states[0])
    ensures Structured(cfg, run.states[n])
  {
    hide Structured, Allowed, After;
    if n > 0 {
      EveryStateIsStructured(cfg, run, n - 1);
      EventStructured(cfg, run.states[n - 1], run.events[n - 1], run.times[n - 1]);
    }
  }

  lemma EmptyIsStructured(cfg: Config)
    ensures Structured(cfg, map[])
  {
    assert forall id :: RefSet(map[], id) == {} && OriginalSet(map[], id) == {};
  }

  // ---------------------------------------------------------------- tokens

  predicate Carries(r: Stored, t: Token) {
    r.state.Claimed? && r.claimToken == Some(t)
  }

  /** Newer claims of the record exist, or the attempt of this token is over. */
  predicate Past(r: Stored, t: Token) {
    t.attempt < r.attempt ||
    (t.attempt == r.attempt && (!r.state.Claimed? || (r.claimExpiry.Some? && t.expiry < r.claimExpiry.value)))
  }

  predicate Current(db: Db, id: bytes, t: Token) {
    HasRecord(db, id) && Carries(Record(db, id), t)
  }

  /** No claim outlives the clock by more than the claim TTL. */
  ghost predicate ClaimsBounded(cfg: Config, db: Db, now: int) {
    forall id :: HasRecord(db, id) && Record(db, id).state.Claimed? && Record(db, id).claimExpiry.Some? ==>
      Record(db, id).claimExpiry.value <= now + cfg.claimTTL
  }

  predicate Outlived(db: Db, id: bytes, t: Token) {
    HasRecord(db, id) ==> Past(Record(db, id), t)
  }

  lemma TokenFields(cfg: Config, db: Db, id: bytes, t: Token)
    requires Structured(cfg, db) && Current(db, id, t)
    ensures t.id == id && t.attempt == Record(db, id).attempt && Record(db, id).claimExpiry == Some(t.expiry)
  {
    assert Fits(cfg, RecordKey(id), db[RecordKey(id)]);
  }

  lemma OutlivedIsNotCurrent(cfg: Config, db: Db, id: bytes, t: Token)
    requires Structured(cfg, db) && Outlived(db, id, t)
    ensures !Current(db, id, t)
  {
    hide Structured;
    if Current(db, id, t) { TokenFields(cfg, db, id, t); assert false; }
  }

  lemma BoundedStep(cfg: Config, db: Db, ev: Event, now: int, before: int)
    requires Structured(cfg, db) && Allowed(cfg, db, ev, now) && ClaimsBounded(cfg, db, before) && before <= now
    ensures ClaimsBounded(cfg, After(cfg, db, ev, now), now)
  {
    var db' := After(cfg, db, ev, now);
    hide Structured, Allowed, After, MovedIds;
    forall id | HasRecord(db', id) && Record(db', id).state.Claimed? && Record(db', id).claimExpiry.Some?
      ensures Record(db', id).claimExpiry.value <= now + cfg.claimTTL
    {
      if HasRecord(db, id) { EventOnRecord(cfg, db, ev, now, id); } else { NewRecordIsPending(cfg, db, ev, now, id); }
    }
  }

  lemma {:induction false} ClaimsStayBounded(cfg: Config, run: Run, n: nat, start: int)
    requires IsRun(cfg, run) && n <= |run.events| && Structured(cfg, run.states[0])
    requires ClaimsBounded(cfg, run.states[0], start)
    requires |run.times| > 0 ==> start <= run.times[0]
    ensures ClaimsBounded(cfg, run.states[n], if n == 0 then start else run.times[n - 1])
  {
    hide Structured, Allowed, After, ClaimsBounded;
    if n > 0 {
      ClaimsStayBounded(cfg, run, n - 1, start);
      EveryStateIsStructured(cfg, run, n - 1);
      BoundedStep(cfg, run.states[n - 1], run.events[n - 1], run.times[n - 1],
                  if n == 1 then start else run.times[n - 2]);
    }
  }

  lemma MoveAges(cfg: Config, id: bytes, r: Stored, move: Move, t: Token)
    requires WellStored(cfg, id, r) && Movable(r, move) && (Carries(r, t) || Past(r, t))
    requires move.Renew? ==> r.claimExpiry.Some? && r.claimExpiry.value <= move.expiry
    ensures Carries(Moved(cfg, id, r, move), t) || Past(Moved(cfg, id, r, move), t)
    ensures Past(r, t) ==> Past(Moved(cfg, id, r, move), t)
  {
  }

  lemma MovedIdMovable(cfg: Config, db: Db, ev: Event, now: int, id: bytes)
    requires Structured(cfg, db) && Allowed(cfg, db, ev, now) && id in MovedIds(ev)
    ensures HasRecord(db, id) && Movable(Record(db, id), MoveOf(cfg, ev, now))
  {
    hide Structured, Allowed, Movable, MoveOf;
    AllowedMoves(cfg, db, ev, now);
    var i :| 0 <= i < |MovedIds(ev)| && MovedIds(ev)[i] == id;
    assert Movable(Record(db, MovedIds(ev)[i]), MoveOf(cfg, ev, now));
  }

  lemma StoredWell(cfg: Config, db: Db, id: bytes)
    requires Structured(cfg, db) && HasRecord(db, id)
    ensures WellStored(cfg, id, Record(db, id))
  {
    assert Fits(cfg, RecordKey(id), db[RecordKey(id)]);
  }

  /** From the moment a token was current it stays current or is outlived, whatever happens while the record is held. */
  lemma TokenStep(cfg: Config, db: Db, ev: Event, now: int, before: int, id: bytes, t: Token)
    requires Structured(cfg, db) && Allowed(cfg, db, ev, now) && ClaimsBounded(cfg, db, before) && before <= now
    requires HasRecord(db, id) && HasRecord(After(cfg, db, ev, now), id)
    requires Current(db, id, t) || Outlived(db, id, t)
    ensures Current(After(cfg, db, ev, now), id, t) || Outlived(After(cfg, db, ev, now), id, t)
    ensures Outlived(db, id, t) ==> Outlived(After(cfg, db, ev, now), id, t)
  {
    hide Structured, Allowed, After, Carries, Past, Moved;
    EventOnRecord(cfg, db, ev, now, id);
    StoredWell(cfg, db, id);
    if id in MovedIds(ev) {
      MovedIdMovable(cfg, db, ev, now, id);
      hide ValidIdentifier;
      MoveAges(cfg, id, Record(db, id), MoveOf(cfg, ev, now), t);
    }
  }

  ghost predicate HeldThroughout(run: Run, id: bytes, i: nat, k: nat) {
    forall n :: i <= n <= k && n < |run.states| ==> HasRecord(run.states[n], id)
  }

  lemma {:induction false} TokenAges(cfg: Config, run: Run, start: int, id: bytes, t: Token, i: nat, k: nat)
    requires IsRun(cfg, run) && i <= k <= |run.events| && Structured(cfg, run.states[0])
    requires ClaimsBounded(cfg, run.states[0], start) && (|run.times| > 0 ==> start <= run.times[0])
    requires HeldThroughout(run, id, i, k)
    requires Current(run.states[i], id, t) || Outlived(run.states[i], id, t)
    ensures Current(run.states[k], id, t) || Outlived(run.states[k], id, t)
    ensures Outlived(run.states[i], id, t) ==> Outlived(run.states[k], id, t)
    decreases k - i
  {
    hide Structured, Allowed, After, ClaimsBounded, Current, Outlived, HasRecord;
    if i < k {
      EveryStateIsStructured(cfg, run, i);
      ClaimsStayBounded(cfg, run, i, start);
      assert HasRecord(run.states[i], id) && HasRecord(run.states[i + 1], id);
      TokenStep(cfg, run.states[i], run.events[i], run.times[i], if i == 0 then start else run.times[i - 1], id, t);
      TokenAges(cfg, run, start, id, t, i + 1, k);
    }
  }

  /** A token superseded by renewal, expiry, re-claim or commit is never honoured again while the record is held. */
  lemma SupersededNeverReturns(cfg: Config, run: Run, start: int, id: bytes, t: Token, i: nat, j: nat, k: nat)
    requires IsRun(cfg, run) && i <= j <= k <= |run.events| && Structured(cfg, run.states[0])
    requires ClaimsBounded(cfg, run.states[0], start) && (|run.times| > 0 ==> start <= run.times[0])
    requires HeldThroughout(run, id, i, k)
    requires Current(run.states[i], id, t) && !Current(run.states[j], id, t)
    ensures !Current(run.states[k], id, t)
    ensures forall now :: !Honoured(run.states[k], ClaimRef(id, t), now)
  {
    hide Structured, Allowed, After, ClaimsBounded, Outlived;
    assert HeldThroughout(run, id, i, j) && HeldThroughout(run, id, j, k);
    TokenAges(cfg, run, start, id, t, i, j);
    TokenAges(cfg, run, start, id, t, j, k);
    EveryStateIsStructured(cfg, run, k);
    OutlivedIsNotCurrent(cfg, run.states[k], id, t);
  }

  /** The token most recently issued for a record by a claim or a renewal before the n-th event. */
  ghost function LastIssued(cfg: Config, run: Run, n: nat, id: bytes): Option<Token>
    requires IsRun(cfg, run) && n <= |run.events|
  {
    if n == 0 then None
    else if (run.events[n - 1].Issued? || run.events[n - 1].Renewed?) && id in MovedIds(run.events[n - 1]) && HasRecord(run.states[n], id)
    then Record(run.states[n], id).claimToken
    else LastIssued(cfg, run, n - 1, id)
  }

  lemma CurrentCameFrom(cfg: Config, db: Db, ev: Event, now: int, id: bytes, t: Token)
    requires Structured(cfg, db) && Allowed(cfg, db, ev, now) && Current(After(cfg, db, ev, now), id, t)
    ensures ((ev.Issued? || ev.Renewed?) && id in MovedIds(ev)) || Current(db, id, t)
  {
    hide Structured, Allowed, After;
    if HasRecord(db, id) { EventOnRecord(cfg, db, ev, now, id); } else { NewRecordIsPending(cfg, db, ev, now, id); }
  }

  /** In a run from the empty journal a claimed record carries the token last issued for it. */
  lemma {:induction false} CurrentIsLastIssued(cfg: Config, run: Run, n: nat, id: bytes, t: Token)
    requires IsRun(cfg, run) && n <= |run.events| && run.states[0] == map[] && Current(run.states[n], id, t)
    ensures LastIssued(cfg, run, n, id) == Some(t)
  {
    hide Structured, Allowed, After, MovedIds, Current;
    if n == 0 {
      CurrentToken(run.states[0], id, t);
    } else {
      EmptyIsStructured(cfg);
      EveryStateIsStructured(cfg, run, n - 1);
      var ev := run.events[n - 1];
      CurrentCameFrom(cfg, run.states[n - 1], ev, run.times[n - 1], id, t);
      if (ev.Issued? || ev.Renewed?) && id in MovedIds(ev) {
        CurrentToken(run.states[n], id, t);
      } else {
        CurrentIsLastIssued(cfg, run, n - 1, id, t);
      }
    }
  }

  lemma CurrentToken(db: Db, id: bytes, t: Token)
    requires Current(db, id, t)
    ensures HasRecord(db, id) && Record(db, id).claimToken == Some(t) && db != map[]
  {
  }

  /** The claims an event renews, commits or quarantines. */
  function Presented(ev: Event): seq<ClaimRef> {
    match ev
    case Renewed(claims) => claims
    case Settled(claims) => claims
    case Quarantined(c, _) => [c]
    case _ => []
  }

  /**
   * A record is only ever renewed, committed or quarantined with the last token issued for it, before that claim's
   * expiry.
   */
  lemma OnlyTheLatestTokenWorks(cfg: Config, run: Run, n: nat, c: ClaimRef)
    requires IsRun(cfg, run) && n < |run.events| && run.states[0] == map[] && c in Presented(run.events[n])
    ensures LastIssued(cfg, run, n, c.id) == Some(c.token) && run.times[n] < c.token.expiry
  {
    EmptyIsStructured(cfg);
    EveryStateIsStructured(cfg, run, n);
    hide Structured, After;
    assert Honoured(run.states[n], c, run.times[n]);
    CurrentIsLastIssued(cfg, run, n, c.id, c.token);
    TokenFields(cfg, run.states[n], c.id, c.token);
  }
}
