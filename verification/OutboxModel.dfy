/** The outbox as guarded row steps, and what any interleaving of publishers can do to a row. */
module OutboxModel {
  import opened Basics

  type Message = bytes
  type Token = bytes

  datatype RowState = Pending | Claimed | Published

  datatype Row = Row(state: RowState, created: int, nextAttempt: int, attempts: nat, token: Option<Token>,
                     expires: Option<int>,
                     publishedAt: Option<int>)

  type Rows = map<Message, Row>

  datatype Claim = Claim(message: Message, token: Token, attempt: nat, expires: int)

  /** What a transport says about one send. */
  datatype Outcome = Taken | Fault | Rejected | Transient

  /** Everything publishers do to the world. A crash is simply the absence of further events of one cycle. */
  datatype Event =
    | ClaimBatch(claims: seq<Claim>, now: int)
    | Publish(claim: Claim, accepted: bool, reply: Outcome)
    | DeadLetter(claim: Claim, accepted: bool, reply: Outcome)
    | Mark(claim: Claim, now: int, ran: bool, replied: bool)
    | Retry(claim: Claim, now: int, next: int, ran: bool)

  // ---------------------------------------------------------------- the guarded row steps

  /** The WHERE clause of ClaimOutbox. */
  predicate Claimable(r: Row, now: int) {
    || (r.state.Pending? && r.nextAttempt <= now)
    || (r.state.Claimed? && r.expires.Some? && r.expires.value <= now)
  }

  /** The WHERE clause of MarkOutboxPublished and RetryOutbox. */
  predicate Held(rows: Rows, c: Claim, now: int) {
    && c.message in rows && rows[c.message].state.Claimed? && rows[c.message].token == Some(c.token)
    && rows[c.message].expires.Some? && rows[c.message].expires.value > now
  }

  function ClaimRow(rows: Rows, c: Claim): Rows
    requires c.message in rows
  {
    rows[c.message := rows[c.message].(state := Claimed, attempts := rows[c.message].attempts + 1, token := Some(c.token), expires := Some(c.expires))]
  }

  function ClaimRows(rows: Rows, claims: seq<Claim>): Rows {
    if claims == [] then rows
    else
      var before := ClaimRows(rows, claims[..|claims| - 1]);
      if claims[|claims| - 1].message in before then ClaimRow(before, claims[|claims| - 1]) else before
  }

  function MarkRow(rows: Rows, c: Claim, now: int): Rows {
    if Held(rows, c, now)
    then rows[c.message := rows[c.message].(state := Published, publishedAt := Some(now), token := None, expires := None)]
    else rows
  }

  function RetryRow(rows: Rows, c: Claim, now: int, next: int): Rows {
    if Held(rows, c, now)
    then rows[c.message := rows[c.message].(state := Pending, nextAttempt := next, token := None, expires := None)]
    else rows
  }

  function Effect(rows: Rows, ev: Event): Rows {
    match ev
    case ClaimBatch(claims, _) => ClaimRows(rows, claims)
    case Mark(c, now, ran, _) => if ran then MarkRow(rows, c, now) else rows
    case Retry(c, now, next, ran) => if ran then RetryRow(rows, c, now, next) else rows
    case _ => rows
  }

  // ---------------------------------------------------------------- histories

  /** An event of one publish cycle. */
  datatype Entry = Entry(cycle: nat, event: Event)

  function RowsAfter(start: Rows, h: seq<Entry>): Rows {
    if h == [] then start else Effect(RowsAfter(start, h[..|h| - 1]), h[|h| - 1].event)
  }

  /** Every token a history has issued. */
  function Issued(h: seq<Entry>): set<Token> {
    set i, j | 0 <= i < |h| && h[i].event.ClaimBatch? && 0 <= j < |h[i].event.claims| :: h[i].event.claims[j].token
  }

  ghost predicate DistinctClaims(claims: seq<Claim>) {
    forall i, j :: 0 <= i < j < |claims| ==>
      claims[i].message != claims[j].message && claims[i].token != claims[j].token
  }

  /** One cycle's own calls, in order. */
  function Calls(h: seq<Entry>, cycle: nat): seq<Event> {
    if h == [] then []
    else Calls(h[..|h| - 1], cycle) + if h[|h| - 1].cycle == cycle then [h[|h| - 1].event] else []
  }

  predicate Delivers(ev: Event, c: Claim) {
    || (ev.Publish? && ev.claim == c && ev.reply.Taken?)
    || (ev.DeadLetter? && ev.claim == c && ev.reply.Taken?)
  }

  /** A publisher marks a row only directly after a queue took that very message from it, and only rows it claimed. */
  ghost predicate Disciplined(calls: seq<Event>) {
    && (forall k :: 0 <= k < |calls| && calls[k].Mark? ==> k > 0 && Delivers(calls[k - 1], calls[k].claim))
    && (forall k :: 0 <= k < |calls| && calls[k].ClaimBatch? ==> k == 0)
    && (forall k :: 0 <= k < |calls| && (calls[k].Mark? || calls[k].Retry?) ==>
          calls[0].ClaimBatch? && calls[k].claim in calls[0].claims)
  }

  /** What the store and the queues guarantee about the event that extends a history. */
  ghost predicate Possible(start: Rows, h: seq<Entry>, ev: Event) {
    match ev
    case ClaimBatch(claims, now) =>
      && DistinctClaims(claims)
      && (forall i :: 0 <= i < |claims| ==>
           && claims[i].message in RowsAfter(start, h) && Claimable(RowsAfter(start, h)[claims[i].message], now)
           && claims[i].token !in Issued(h) && claims[i].expires > now)
    case Publish(_, accepted, reply) => reply.Taken? ==> accepted
    case DeadLetter(_, accepted, reply) => reply.Taken? ==> accepted
    case Mark(c, now, ran, replied) => replied ==> ran && Held(RowsAfter(start, h), c, now)
    case Retry(_, now, next, _) => now <= next
  }

  /** Any interleaving of any number of cycles, each cut off anywhere. */
  ghost predicate IsHistory(start: Rows, h: seq<Entry>) {
    && (forall m :: m in start ==> start[m].state.Pending? && start[m].token.None? && start[m].expires.None?)
    && (forall n :: 0 <= n < |h| ==> Possible(start, h[..n], h[n].event))
    && (forall cycle :: Disciplined(Calls(h, cycle)))
  }

  lemma HistoryPrefix(start: Rows, h: seq<Entry>, n: nat)
    requires IsHistory(start, h) && n <= |h|
    ensures IsHistory(start, h[..n])
  {
    hide Possible, Disciplined;
    forall k | 0 <= k < n ensures Possible(start, h[..n][..k], h[..n][k].event) { assert h[..n][..k] == h[..k]; }
    forall cycle ensures Disciplined(Calls(h[..n], cycle)) { CallsPrefix(start, h, n, cycle); }
  }

  lemma {:induction false} CallsPrefix(start: Rows, h: seq<Entry>, n: nat, cycle: nat)
    requires n <= |h| && Disciplined(Calls(h, cycle))
    ensures Disciplined(Calls(h[..n], cycle))
  {
    if n < |h| {
      var last := |h| - 1;
      var shorter, all := Calls(h[..last], cycle), Calls(h, cycle);
      assert shorter == all[..|shorter|];
      assert Disciplined(shorter) by { DisciplinedPrefix(all, |shorter|); }
      CallsPrefix(start, h[..last], n, cycle);
      assert h[..last][..n] == h[..n];
    } else {
      assert h[..n] == h;
    }
  }

  lemma DisciplinedPrefix(calls: seq<Event>, n: nat)
    requires Disciplined(calls) && n <= |calls|
    ensures Disciplined(calls[..n])
  {
    hide Delivers;
    var p := calls[..n];
    assert forall k :: 0 <= k < n ==> p[k] == calls[k];
  }

  // ---------------------------------------------------------------- published only after acceptance

  predicate AcceptedBy(ev: Event, m: Message) {
    (ev.Publish? || ev.DeadLetter?) && ev.claim.message == m && ev.accepted
  }

  ghost predicate Accepted(h: seq<Entry>, m: Message) {
    exists k :: 0 <= k < |h| && AcceptedBy(h[k].event, m)
  }

  /** The j-th call of a cycle, as an entry of the whole history. */
  lemma {:induction false} CallIsEntry(h: seq<Entry>, cycle: nat, j: nat) returns (k: nat)
    requires j < |Calls(h, cycle)|
    ensures k < |h| && h[k].cycle == cycle && h[k].event == Calls(h, cycle)[j]
  {
    var n := |h| - 1;
    if j < |Calls(h[..n], cycle)| { k := CallIsEntry(h[..n], cycle, j); } else { k := n; }
  }

  /** A mark that reaches the store finds its message accepted earlier in the same history. */
  lemma MarkFollowsAcceptance(start: Rows, h: seq<Entry>)
    requires IsHistory(start, h) && |h| > 0 && h[|h| - 1].event.Mark?
    ensures Accepted(h[..|h| - 1], h[|h| - 1].event.claim.message)
  {
    var n := |h| - 1;
    var ev, cycle := h[n].event, h[n].cycle;
    var earlier, calls := Calls(h[..n], cycle), Calls(h, cycle);
    assert Disciplined(calls) && calls[|earlier|] == ev;
    hide Disciplined;
    MarkPredecessor(calls, |earlier|);
    assert calls[|earlier| - 1] == earlier[|earlier| - 1];
    var k := CallIsEntry(h[..n], cycle, |earlier| - 1);
    assert Possible(start, h[..k], h[k].event);
    assert AcceptedBy(h[..n][k].event, ev.claim.message);
  }

  lemma MarkPredecessor(calls: seq<Event>, k: nat)
    requires Disciplined(calls) && k < |calls| && calls[k].Mark?
    ensures k > 0 && Delivers(calls[k - 1], calls[k].claim)
  {
  }

  lemma {:induction false} ClaimRowsEffect(rows: Rows, claims: seq<Claim>, m: Message)
    ensures m in ClaimRows(rows, claims) <==> m in rows
    ensures m in rows && (forall i :: 0 <= i < |claims| ==> claims[i].message != m) ==>
              ClaimRows(rows, claims)[m] == rows[m]
    ensures m in rows && (exists i :: 0 <= i < |claims| && claims[i].message == m) ==>
              ClaimRows(rows, claims)[m].state.Claimed?
  {
    if claims != [] {
      var n := |claims| - 1;
      ClaimRowsEffect(rows, claims[..n], m);
      if exists i :: 0 <= i < |claims| && claims[i].message == m {
        var i :| 0 <= i < |claims| && claims[i].message == m;
        if i < n { assert claims[..n][i].message == m; }
      }
    }
  }

  lemma ClaimRowOf(rows: Rows, claims: seq<Claim>, i: nat)
    requires i < |claims| && DistinctClaims(claims) && claims[i].message in rows
    ensures claims[i].message in ClaimRows(rows, claims)
    ensures ClaimRows(rows, claims)[claims[i].message] ==
              rows[claims[i].message].(state := Claimed, attempts := rows[claims[i].message].attempts + 1,
                                       token := Some(claims[i].token), expires := Some(claims[i].expires))
  {
    var n := |claims| - 1;
    ClaimRowsEffect(rows, claims[..n], claims[i].message);
    if i < n { ClaimRowOf(rows, claims[..n], i); }
  }

  /**
   * Over any interleaving, lost acknowledgements and crashes included, a published row's message was taken by a queue.
   */
  lemma {:induction false} PublishedWasAccepted(start: Rows, h: seq<Entry>, m: Message)
    requires IsHistory(start, h) && m in RowsAfter(start, h) && RowsAfter(start, h)[m].state.Published?
    ensures Accepted(h, m)
  {
    if h != [] {
      var n := |h| - 1;
      var before, ev := RowsAfter(start, h[..n]), h[n].event;
      HistoryPrefix(start, h, n);
      if ev.Mark? { MarkFollowsAcceptance(start, h); }
      if ev.ClaimBatch? { ClaimRowsEffect(before, ev.claims, m); }
      hide IsHistory;
      if m in before && before[m].state.Published? { PublishedWasAccepted(start, h[..n], m); }
      assert Accepted(h[..n], m);
      var k :| 0 <= k < n && AcceptedBy(h[..n][k].event, m);
      assert AcceptedBy(h[k].event, m);
    }
  }

  /** Once published, a row never changes again. */
  lemma PublishedIsFinal(start: Rows, h: seq<Entry>, n: nat, m: Message)
    requires IsHistory(start, h) && n <= |h| && m in RowsAfter(start, h[..n])
    requires RowsAfter(start, h[..n])[m].state.Published?
    ensures m in RowsAfter(start, h) && RowsAfter(start, h)[m] == RowsAfter(start, h[..n])[m]
    decreases |h|
  {
    if n < |h| {
      var last := |h| - 1;
      var before, ev := RowsAfter(start, h[..last]), h[last].event;
      HistoryPrefix(start, h, last);
      assert h[..last][..n] == h[..n];
      PublishedIsFinal(start, h[..last], n, m);
      assert Possible(start, h[..last], ev);
      hide IsHistory;
      if ev.ClaimBatch? { ClaimRowsEffect(before, ev.claims, m); }
    } else {
      assert h[..n] == h;
    }
  }

  // ---------------------------------------------------------------- fencing

  /** The claim most recently issued for a message. */
  function LastClaim(h: seq<Entry>, m: Message): Option<Claim> {
    if h == [] then None
    else
      var ev := h[|h| - 1].event;
      if ev.ClaimBatch? && ClaimFor(ev.claims, m).Some? then ClaimFor(ev.claims, m) else LastClaim(h[..|h| - 1], m)
  }

  function ClaimFor(claims: seq<Claim>, m: Message): (c: Option<Claim>)
    ensures c.Some? ==> c.value in claims && c.value.message == m
    ensures c.None? ==> forall i :: 0 <= i < |claims| ==> claims[i].message != m
  {
    if claims == [] then None
    else if claims[|claims| - 1].message == m then Some(claims[|claims| - 1])
    else ClaimFor(claims[..|claims| - 1], m)
  }

  /** A row carries the token and the lease of the last claim issued for it, or none at all. */
  ghost predicate RowFenced(rows: Rows, h: seq<Entry>, m: Message) {
    m in rows ==>
      var r := rows[m];
      if r.state.Claimed?
      then LastClaim(h, m).Some? && r.token == Some(LastClaim(h, m).value.token) && r.expires == Some(LastClaim(h, m).value.expires)
      else r.token.None? && r.expires.None?
  }

  lemma {:induction false} RowsAreFenced(start: Rows, h: seq<Entry>, m: Message)
    requires IsHistory(start, h)
    ensures RowFenced(RowsAfter(start, h), h, m)
  {
    if h != [] {
      var n := |h| - 1;
      var before, ev := RowsAfter(start, h[..n]), h[n].event;
      HistoryPrefix(start, h, n);
      RowsAreFenced(start, h[..n], m);
      assert Possible(start, h[..n], ev);
      hide IsHistory;
      if ev.ClaimBatch? {
        ClaimRowsEffect(before, ev.claims, m);
        var c := ClaimFor(ev.claims, m);
        if c.Some? && m in before {
          var i :| 0 <= i < |ev.claims| && ev.claims[i] == c.value;
          ClaimRowOf(before, ev.claims, i);
        }
      }
    }
  }

  /**
   * A mark or a retry changes a row only for the holder of the claim last issued for it, and only before its lease
   * ends.
   */
  lemma OnlyTheLastClaimChangesARow(start: Rows, h: seq<Entry>, c: Claim, now: int, next: int)
    requires IsHistory(start, h)
    ensures Held(RowsAfter(start, h), c, now) ==>
              LastClaim(h, c.message).Some? && LastClaim(h, c.message).value.token == c.token &&
              now < LastClaim(h, c.message).value.expires
    ensures MarkRow(RowsAfter(start, h), c, now) != RowsAfter(start, h) ==> Held(RowsAfter(start, h), c, now)
    ensures RetryRow(RowsAfter(start, h), c, now, next) != RowsAfter(start, h) ==> Held(RowsAfter(start, h), c, now)
  {
    RowsAreFenced(start, h, c.message);
  }

  lemma IssuedGrows(h: seq<Entry>, n: nat)
    requires n <= |h|
    ensures Issued(h[..n]) <= Issued(h)
  {
    forall t | t in Issued(h[..n]) ensures t in Issued(h) {
      var i, j :| 0 <= i < n && h[..n][i].event.ClaimBatch? && 0 <= j < |h[..n][i].event.claims| && h[..n][i].event.claims[j].token == t;
      assert h[i].event.claims[j].token == t;
    }
  }

  /** A claim handed out now carries a token never handed out before. */
  lemma ClaimIsNew(start: Rows, h: seq<Entry>, m: Message, t: Token)
    requires IsHistory(start, h) && h != [] && t in Issued(h[..|h| - 1])
    ensures var ev := h[|h| - 1].event;
            ev.ClaimBatch? && ClaimFor(ev.claims, m).Some? ==> ClaimFor(ev.claims, m).value.token != t
  {
    var n := |h| - 1;
    var ev := h[n].event;
    assert Possible(start, h[..n], ev);
    hide IsHistory;
    if ev.ClaimBatch? && ClaimFor(ev.claims, m).Some? {
      var j :| 0 <= j < |ev.claims| && ev.claims[j] == ClaimFor(ev.claims, m).value;
    }
  }

  /** Superseded once, superseded for ever: the holder of an older token can never change the row again. */
  lemma {:induction false} SupersededNeverWrites(start: Rows, h: seq<Entry>, n: nat, c: Claim, now: int)
    requires IsHistory(start, h) && n <= |h| && c.token in Issued(h[..n])
    requires LastClaim(h[..n], c.message).Some? && LastClaim(h[..n], c.message).value.token != c.token
    ensures LastClaim(h, c.message).Some? && LastClaim(h, c.message).value.token != c.token
    ensures !Held(RowsAfter(start, h), c, now)
    decreases |h|
  {
    hide IsHistory, Held, Issued, ClaimFor, RowsAfter, MarkRow, RetryRow;
    OnlyTheLastClaimChangesARow(start, h, c, now, now);
    if n < |h| {
      var last := |h| - 1;
      HistoryPrefix(start, h, last);
      assert h[..last][..n] == h[..n];
      SupersededNeverWrites(start, h[..last], n, c, now);
      IssuedGrows(h[..last], n);
      ClaimIsNew(start, h, c.message, c.token);
    } else {
      assert h[..n] == h;
    }
  }

  // ---------------------------------------------------------------- nothing is lost

  ghost predicate ClaimableFrom(r: Row, t: int) {
    forall u :: t <= u ==> Claimable(r, u)
  }

  /** From some time on the row can be claimed. */
  ghost predicate Waiting(r: Row) {
    exists t :: ClaimableFrom(r, t)
  }

  /** Every message stays in the table, and unless it is published there is a time from which on it can be claimed. */
  lemma {:induction false} NothingIsLost(start: Rows, h: seq<Entry>, m: Message)
    requires IsHistory(start, h) && m in start
    ensures m in RowsAfter(start, h)
    ensures RowsAfter(start, h)[m].state.Published? || Waiting(RowsAfter(start, h)[m])
  {
    if h == [] {
      assert ClaimableFrom(start[m], start[m].nextAttempt);
    } else {
      var n := |h| - 1;
      var before, ev := RowsAfter(start, h[..n]), h[n].event;
      HistoryPrefix(start, h, n);
      NothingIsLost(start, h[..n], m);
      RowsAreFenced(start, h, m);
      hide IsHistory, Waiting;
      if ev.ClaimBatch? { ClaimRowsEffect(before, ev.claims, m); }
      UnpublishedWaits(RowsAfter(start, h)[m]);
    }
  }

  lemma UnpublishedWaits(r: Row)
    requires r.state.Claimed? ==> r.expires.Some?
    ensures r.state.Published? || Waiting(r)
  {
    if r.state.Pending? { assert ClaimableFrom(r, r.nextAttempt); }
    if r.state.Claimed? { assert ClaimableFrom(r, r.expires.value); }
  }

  // ---------------------------------------------------------------- the lease

  /** leaseCovers. */
  predicate LeaseCovers(c: Claim, now: int, publishTimeout: int) {
    now + publishTimeout <= c.expires
  }

  /** The last holder's mark is accepted exactly while its lease lasts. */
  lemma HeldWhileLeased(start: Rows, h: seq<Entry>, c: Claim, done: int)
    requires IsHistory(start, h) && c.message in RowsAfter(start, h)
    requires RowsAfter(start, h)[c.message].state.Claimed? && LastClaim(h, c.message) == Some(c)
    ensures Held(RowsAfter(start, h), c, done) <==> done < c.expires
  {
    RowsAreFenced(start, h, c.message);
  }
}
