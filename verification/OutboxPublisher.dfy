/** The publish cycle and the store's row methods, as loops over claims. */
module OutboxPublisher {
  import opened Basics
  import opened OutboxModel

  datatype Config = Config(publishTimeout: int, maxAttempts: nat, batch: nat, claimTTL: int)

  /** What happens around one claim: the context, the clock, the boundary check, both queues and the store's answers. */
  datatype Weather = Weather(cut: bool, checkedAt: int, boundary: Outcome, accepted: bool, reply: Outcome,
                             deadAccepted: bool, deadReply: Outcome, markAt: int, markRan: bool, marked: bool,
                             retryAt: int, backoff: nat, deadBackoff: nat, retryRan: bool)

  datatype Tally = Tally(claimed: nat, published: nat, deadLettered: nat, retried: nat, unrecorded: nat)

  /** Claims that reached one of the four terminal counts. */
  function Landed(t: Tally): nat {
    t.published + t.deadLettered + t.retried + t.unrecorded
  }

  // ---------------------------------------------------------------- one message's lifecycle

  predicate Undeliverable(cfg: Config, c: Claim, o: Outcome) {
    o.Rejected? || (o.Transient? && c.attempt >= cfg.maxAttempts)
  }

  /** What the attempt comes to before any dead-lettering: the boundary check first, then the queue. */
  function Verdict(w: Weather): Outcome {
    if w.boundary.Taken? then w.reply else w.boundary
  }

  /** The calls deliver makes for one claim, in order. */
  function DeliveryCalls(cfg: Config, c: Claim, w: Weather): seq<Event> {
    var tried := if w.boundary.Taken? then [Publish(c, w.accepted, w.reply)] else [];
    var o := Verdict(w);
    tried +
    if o.Taken? then [Mark(c, w.markAt, w.markRan, w.marked)]
    else if o.Fault? then [Retry(c, w.retryAt, w.retryAt, w.retryRan)]
    else if Undeliverable(cfg, c, o) then
      [DeadLetter(c, w.deadAccepted, w.deadReply)] +
      (if w.deadReply.Taken? then [Mark(c, w.markAt, w.markRan, w.marked)] else [Retry(c, w.retryAt, w.retryAt + w.deadBackoff, w.retryRan)])
    else [Retry(c, w.retryAt, w.retryAt + w.backoff, w.retryRan)]
  }

  /** releaseNow. */
  function ReleaseCalls(claims: seq<Claim>, weather: seq<Weather>, i: nat): seq<Event>
    requires |weather| == |claims| && i <= |claims|
    decreases |claims| - i
  {
    if i == |claims| then []
    else [Retry(claims[i], weather[i].retryAt, weather[i].retryAt, weather[i].retryRan)] + ReleaseCalls(claims, weather, i + 1)
  }

  /** The whole cycle after its claim: from the i-th claim on. */
  function CycleCalls(cfg: Config, claims: seq<Claim>, weather: seq<Weather>, i: nat): seq<Event>
    requires |weather| == |claims| && i <= |claims|
    decreases |claims| - i
  {
    if i == |claims| || weather[i].cut then []
    else if !LeaseCovers(claims[i], weather[i].checkedAt, cfg.publishTimeout) then ReleaseCalls(claims, weather, i)
    else
      DeliveryCalls(cfg, claims[i], weather[i]) +
      if Verdict(weather[i]).Fault? then ReleaseCalls(claims, weather, i + 1)
      else CycleCalls(cfg, claims, weather, i + 1)
  }

  // ---------------------------------------------------------------- every cycle is disciplined

  /** Calls that keep the discipline wherever they are appended to a disciplined cycle. */
  ghost predicate Safe(calls: seq<Event>, claims: seq<Claim>) {
    && (forall k :: 0 <= k < |calls| && calls[k].Mark? ==> k > 0 && Delivers(calls[k - 1], calls[k].claim))
    && (forall k :: 0 <= k < |calls| ==> !calls[k].ClaimBatch?)
    && (forall k :: 0 <= k < |calls| && (calls[k].Mark? || calls[k].Retry?) ==> calls[k].claim in claims)
  }

  lemma SafeAppend(a: seq<Event>, b: seq<Event>, claims: seq<Claim>)
    requires Safe(a, claims) && Safe(b, claims)
    ensures Safe(a + b, claims)
  {
    var s := a + b;
    forall k | 0 <= k < |s| && s[k].Mark? ensures k > 0 && Delivers(s[k - 1], s[k].claim) {
      if k >= |a| {
        assert s[k] == b[k - |a|] && k - |a| > 0;
        assert s[k - 1] == b[k - |a| - 1];
      }
    }
  }

  lemma DeliverySafe(cfg: Config, c: Claim, w: Weather, claims: seq<Claim>)
    requires c in claims
    ensures Safe(DeliveryCalls(cfg, c, w), claims)
  {
  }

  lemma {:induction false} ReleaseSafe(claims: seq<Claim>, weather: seq<Weather>, i: nat)
    requires |weather| == |claims| && i <= |claims|
    ensures Safe(ReleaseCalls(claims, weather, i), claims)
    decreases |claims| - i
  {
    if i < |claims| {
      ReleaseSafe(claims, weather, i + 1);
      assert Safe([Retry(claims[i], weather[i].retryAt, weather[i].retryAt, weather[i].retryRan)], claims);
      SafeAppend([Retry(claims[i], weather[i].retryAt, weather[i].retryAt, weather[i].retryRan)],
                 ReleaseCalls(claims, weather, i + 1), claims);
    }
  }

  lemma {:induction false} CycleSafe(cfg: Config, claims: seq<Claim>, weather: seq<Weather>, i: nat)
    requires |weather| == |claims| && i <= |claims|
    ensures Safe(CycleCalls(cfg, claims, weather, i), claims)
    decreases |claims| - i
  {
    hide Safe, DeliveryCalls;
    if i == |claims| || weather[i].cut {
      NoCallsSafe(claims);
    } else {
      ReleaseSafe(claims, weather, i);
      ReleaseSafe(claims, weather, i + 1);
      DeliverySafe(cfg, claims[i], weather[i], claims);
      CycleSafe(cfg, claims, weather, i + 1);
      var rest := if Verdict(weather[i]).Fault? then ReleaseCalls(claims, weather, i + 1) else CycleCalls(cfg, claims, weather, i + 1);
      SafeAppend(DeliveryCalls(cfg, claims[i], weather[i]), rest, claims);
    }
  }

  lemma NoCallsSafe(claims: seq<Claim>)
    ensures Safe([], claims)
  {
  }

  /** Whatever happens around it, a cycle only ever marks what a queue has just taken, and only what it claimed. */
  lemma CycleIsDisciplined(cfg: Config, claims: seq<Claim>, weather: seq<Weather>, now: int)
    requires |weather| == |claims|
    ensures Disciplined([ClaimBatch(claims, now)] + CycleCalls(cfg, claims, weather, 0))
  {
    hide CycleCalls, Delivers;
    var calls := CycleCalls(cfg, claims, weather, 0);
    CycleSafe(cfg, claims, weather, 0);
    var all := [ClaimBatch(claims, now)] + calls;
    assert forall k :: 0 < k < |all| ==> all[k] == calls[k - 1];
  }

  // ---------------------------------------------------------------- every claim is settled once

  predicate Settles(ev: Event) {
    ev.Mark? || ev.Retry?
  }

  /** The claims whose rows a sequence of calls tries to settle, in order. */
  function Settled(calls: seq<Event>): (claims: seq<Claim>)
    ensures |claims| <= |calls|
  {
    if calls == [] then []
    else Settled(calls[..|calls| - 1]) + if Settles(calls[|calls| - 1]) then [calls[|calls| - 1].claim] else []
  }

  lemma {:induction false} SettledAppend(a: seq<Event>, b: seq<Event>)
    ensures Settled(a + b) == Settled(a) + Settled(b)
  {
    if b == [] {
      assert a + b == a;
    } else {
      assert (a + b)[..|a + b| - 1] == a + b[..|b| - 1];
      SettledAppend(a, b[..|b| - 1]);
    }
  }

  /**
   * One delivery ends in the only call that settles its row, and that call is a mark exactly when a queue took the
   * message: what was taken is never retried, nor offered to the dead-letter queue, and what was not is never marked.
   */
  lemma DeliverySettlesOnce(cfg: Config, c: Claim, w: Weather)
    ensures var calls := DeliveryCalls(cfg, c, w);
            && Settled(calls) == [c] && calls != [] && Settles(calls[|calls| - 1])
            && (calls[|calls| - 1].Mark? <==> exists k :: 0 <= k < |calls| && Delivers(calls[k], c))
            && (forall j, k :: 0 <= j < k < |calls| && Delivers(calls[j], c) ==> calls[k].Mark?)
  {
    var calls := DeliveryCalls(cfg, c, w);
    var n := |calls| - 1;
    assert Settled(calls[..n]) == [] by {
      assert forall k :: 0 <= k < n ==> !Settles(calls[k]);
      NoneSettle(calls[..n]);
    }
    if calls[n].Mark? { assert Delivers(calls[n - 1], c); }
  }

  lemma {:induction false} NoneSettle(calls: seq<Event>)
    requires forall k :: 0 <= k < |calls| ==> !Settles(calls[k])
    ensures Settled(calls) == []
  {
    if calls != [] { NoneSettle(calls[..|calls| - 1]); }
  }

  lemma {:induction false} ReleaseSettles(claims: seq<Claim>, weather: seq<Weather>, i: nat)
    requires |weather| == |claims| && i <= |claims|
    ensures Settled(ReleaseCalls(claims, weather, i)) == claims[i..]
    decreases |claims| - i
  {
    if i < |claims| {
      var one := [Retry(claims[i], weather[i].retryAt, weather[i].retryAt, weather[i].retryRan)];
      ReleaseSettles(claims, weather, i + 1);
      SettledAppend(one, ReleaseCalls(claims, weather, i + 1));
      assert Settled(one) == [claims[i]] by { assert one[..0] == []; }
    }
  }

  /**
   * A cycle settles the claims it took in their order, each once, up to where it is cut short; uncut, it settles them
   * all.
   */
  lemma {:induction false} CycleSettlesEachOnce(cfg: Config, claims: seq<Claim>, weather: seq<Weather>, i: nat)
    requires |weather| == |claims| && i <= |claims|
    ensures Settled(CycleCalls(cfg, claims, weather, i)) <= claims[i..]
    ensures (forall k :: i <= k < |claims| ==> !weather[k].cut) ==>
              Settled(CycleCalls(cfg, claims, weather, i)) == claims[i..]
    decreases |claims| - i
  {
    hide DeliveryCalls, ReleaseCalls, Settled, LeaseCovers, Verdict;
    if i == |claims| || weather[i].cut {
      NoneSettle([]);
    } else {
      ReleaseSettles(claims, weather, i);
      ReleaseSettles(claims, weather, i + 1);
      DeliverySettlesOnce(cfg, claims[i], weather[i]);
      CycleSettlesEachOnce(cfg, claims, weather, i + 1);
      var rest := if Verdict(weather[i]).Fault? then ReleaseCalls(claims, weather, i + 1) else CycleCalls(cfg, claims, weather, i + 1);
      SettledAppend(DeliveryCalls(cfg, claims[i], weather[i]), rest);
    }
  }

  /** Cut off anywhere, by a crash or a cancelled context, it is still disciplined. */
  lemma EveryCutIsDisciplined(cfg: Config, claims: seq<Claim>, weather: seq<Weather>, now: int, n: nat)
    requires |weather| == |claims| && n <= 1 + |CycleCalls(cfg, claims, weather, 0)|
    ensures Disciplined(([ClaimBatch(claims, now)] + CycleCalls(cfg, claims, weather, 0))[..n])
  {
    hide CycleCalls, Disciplined;
    CycleIsDisciplined(cfg, claims, weather, now);
    DisciplinedPrefix([ClaimBatch(claims, now)] + CycleCalls(cfg, claims, weather, 0), n);
  }

  // ---------------------------------------------------------------- how long a lease must last

  function Sends(calls: seq<Event>): nat {
    if calls == [] then 0
    else Sends(calls[..|calls| - 1]) + if calls[|calls| - 1].Publish? || calls[|calls| - 1].DeadLetter? then 1 else 0
  }

  function Sum(spans: seq<int>): int {
    if spans == [] then 0 else Sum(spans[..|spans| - 1]) + spans[|spans| - 1]
  }

  /** How long a number of sends may take, each under its own timeout. */
  predicate Takes(spans: seq<int>, sends: nat, timeout: int) {
    |spans| == sends && forall i :: 0 <= i < |spans| ==> 0 <= spans[i] <= timeout
  }

  /** The longest a number of sends may take. */
  function Longest(sends: nat, timeout: int): int {
    sends * timeout
  }

  lemma OneSendMore(sends: nat, timeout: int)
    ensures Longest(sends + 1, timeout) == Longest(sends, timeout) + timeout && Longest(0, timeout) == 0
  {
  }

  lemma {:induction false} SumBound(spans: seq<int>, sends: nat, timeout: int)
    requires Takes(spans, sends, timeout)
    ensures Sum(spans) <= Longest(sends, timeout)
  {
    hide Longest;
    if spans != [] {
      SumBound(spans[..|spans| - 1], sends - 1, timeout);
      OneSendMore(sends - 1, timeout);
    } else {
      OneSendMore(0, timeout);
    }
  }

  lemma {:induction false} SlowestSends(sends: nat, timeout: int) returns (spans: seq<int>)
    requires timeout >= 0
    ensures Takes(spans, sends, timeout) && Sum(spans) == Longest(sends, timeout)
  {
    hide Longest;
    OneSendMore(0, timeout);
    spans := [];
    if sends > 0 {
      var fewer := SlowestSends(sends - 1, timeout);
      spans := fewer + [timeout];
      assert spans[..|spans| - 1] == fewer;
      OneSendMore(sends - 1, timeout);
    }
  }

  /** A delivery sends once if it passes the boundary check and once more, each time, if it has to dead-letter. */
  lemma DeliverySends(cfg: Config, c: Claim, w: Weather)
    ensures Sends(DeliveryCalls(cfg, c, w)) ==
              (if w.boundary.Taken? then 1 else 0) + (if Undeliverable(cfg, c, Verdict(w)) then 1 else 0)
  {
    hide Sends;
    var calls := DeliveryCalls(cfg, c, w);
    NoSends();
    var one := [calls[0]];
    SendsOneMore([], calls[0]);
    assert [] + [calls[0]] == one;
    if |calls| == 1 {
      assert calls == one;
    } else {
      SendsOneMore(one, calls[1]);
      if |calls| == 2 {
        assert calls == one + [calls[1]];
      } else {
        SendsOneMore(one + [calls[1]], calls[2]);
        assert calls == one + [calls[1]] + [calls[2]];
      }
    }
  }

  lemma NoSends()
    ensures Sends([]) == 0
  {
  }

  lemma SendsOneMore(calls: seq<Event>, x: Event)
    ensures Sends(calls + [x]) == Sends(calls) + if x.Publish? || x.DeadLetter? then 1 else 0
  {
    assert (calls + [x])[..|calls|] == calls;
  }

  /**
   * However long its sends take within their timeouts, the mark that ends a delivery is recorded exactly when the lease
   * outlasts all of them; the check made before it, leaseCovers, allows for one send only.
   */
  lemma CoveredAttemptMarks(cfg: Config, start: Rows, h: seq<Entry>, c: Claim, w: Weather)
    requires IsHistory(start, h) && c.message in RowsAfter(start, h) && cfg.publishTimeout > 0
    requires RowsAfter(start, h)[c.message].state.Claimed? && LastClaim(h, c.message) == Some(c)
    ensures var sends := Sends(DeliveryCalls(cfg, c, w));
            && (w.checkedAt + Longest(sends, cfg.publishTimeout) < c.expires <==>
                 forall spans :: Takes(spans, sends, cfg.publishTimeout) ==>
                   Held(RowsAfter(start, h), c, w.checkedAt + Sum(spans)))
            && sends <= 2 && (sends == 2 <==> w.boundary.Taken? && Undeliverable(cfg, c, Verdict(w)))
  {
    hide DeliveryCalls, Held, IsHistory, Takes, Undeliverable, Verdict, RowsAfter, LastClaim, Sends, Sum, Longest;
    var sends := Sends(DeliveryCalls(cfg, c, w));
    DeliverySends(cfg, c, w);
    var slowest := SlowestSends(sends, cfg.publishTimeout);
    HeldWhileLeased(start, h, c, w.checkedAt + Sum(slowest));
    forall spans | Takes(spans, sends, cfg.publishTimeout)
      ensures w.checkedAt + Longest(sends, cfg.publishTimeout) < c.expires ==>
                Held(RowsAfter(start, h), c, w.checkedAt + Sum(spans))
    {
      SumBound(spans, sends, cfg.publishTimeout);
      HeldWhileLeased(start, h, c, w.checkedAt + Sum(spans));
    }
  }

  const SECOND := 1_000_000_000
  const DEFAULTS := Config(10 * SECOND, 8, 25, 30 * SECOND)
  const LETTER: Message := [109]
  const WAITING := map[LETTER := Row(Pending, 0, 0, 7, None, None, None)]
  const LAST_TRY := Claim(LETTER, [116], 8, 30 * SECOND)

  /** The publish fails after nine seconds; the dead-letter queue takes the message nine seconds later. */
  const SLOW := Weather(false, 20 * SECOND, Taken, false, Transient, true, Taken, 38 * SECOND, true, false, 0, 0, 0,
                        false)

  const SLOW_RUN: seq<Entry> := [
    Entry(0, ClaimBatch([LAST_TRY], 0)), Entry(0, Publish(LAST_TRY, false, Transient)),
    Entry(0, DeadLetter(LAST_TRY, true, Taken)), Entry(0, Mark(LAST_TRY, 38 * SECOND, true, false))]

  lemma SlowCalls()
    ensures LeaseCovers(LAST_TRY, SLOW.checkedAt, DEFAULTS.publishTimeout)
    ensures DeliveryCalls(DEFAULTS, LAST_TRY, SLOW) ==
              [Publish(LAST_TRY, false, Transient), DeadLetter(LAST_TRY, true, Taken),
               Mark(LAST_TRY, 38 * SECOND, true, false)]
    ensures [ClaimBatch([LAST_TRY], 0)] + CycleCalls(DEFAULTS, [LAST_TRY], [SLOW], 0) == Calls(SLOW_RUN, 0)
  {
    CallsOfCycle(SLOW_RUN, 0);
  }

  lemma {:induction false} CallsOfCycle(h: seq<Entry>, cycle: nat)
    requires forall i :: 0 <= i < |h| ==> h[i].cycle == 0
    ensures Calls(h, cycle) == if cycle == 0 then seq(|h|, i requires 0 <= i < |h| => h[i].event) else []
  {
    if h != [] { CallsOfCycle(h[..|h| - 1], cycle); }
  }

  lemma SlowRows()
    ensures LETTER in ClaimRows(WAITING, [LAST_TRY])
    ensures ClaimRows(WAITING, [LAST_TRY])[LETTER] == Row(Claimed, 0, 0, 8, Some([116]), Some(30 * SECOND), None)
    ensures forall n :: 1 <= n <= 4 ==> RowsAfter(WAITING, SLOW_RUN[..n]) == ClaimRows(WAITING, [LAST_TRY])
  {
    var rows := ClaimRows(WAITING, [LAST_TRY]);
    assert [LAST_TRY][..0] == [];
    assert SLOW_RUN[..1][..0] == [] && SLOW_RUN[..2][..1] == SLOW_RUN[..1];
    assert SLOW_RUN[..3][..2] == SLOW_RUN[..2] && SLOW_RUN[..4][..3] == SLOW_RUN[..3];
    assert RowsAfter(WAITING, SLOW_RUN[..1]) == rows;
    assert RowsAfter(WAITING, SLOW_RUN[..2]) == rows;
    assert RowsAfter(WAITING, SLOW_RUN[..3]) == rows;
    assert MarkRow(rows, LAST_TRY, 38 * SECOND) == rows;
    assert RowsAfter(WAITING, SLOW_RUN[..4]) == rows;
  }

  /**
   * With the default limits a delivery whose lease covers it can end eight seconds past that lease: the dead-letter
   * queue has the message, the mark is refused, and the row can be claimed, and the message sent, once more.
   */
  lemma ADeadLetterOutlastsItsLease()
    ensures LeaseCovers(LAST_TRY, SLOW.checkedAt, DEFAULTS.publishTimeout)
    ensures [ClaimBatch([LAST_TRY], 0)] + CycleCalls(DEFAULTS, [LAST_TRY], [SLOW], 0) == Calls(SLOW_RUN, 0)
    ensures IsHistory(WAITING, SLOW_RUN) && Accepted(SLOW_RUN, LETTER)
    ensures var rows := RowsAfter(WAITING, SLOW_RUN);
            LETTER in rows && !Held(rows, LAST_TRY, 38 * SECOND) && Claimable(rows[LETTER], 38 * SECOND)
  {
    SlowCalls();
    SlowRows();
    assert SLOW_RUN[..4] == SLOW_RUN && SLOW_RUN[..0] == [];
    CycleIsDisciplined(DEFAULTS, [LAST_TRY], [SLOW], 0);
    forall cycle ensures Disciplined(Calls(SLOW_RUN, cycle)) { CallsOfCycle(SLOW_RUN, cycle); }
    hide Disciplined, Calls, RowsAfter, ClaimRows, CycleCalls;
    FirstIsPossible();
    assert Possible(WAITING, SLOW_RUN[..1], SLOW_RUN[1].event);
    assert Possible(WAITING, SLOW_RUN[..2], SLOW_RUN[2].event);
    assert Possible(WAITING, SLOW_RUN[..3], SLOW_RUN[3].event);
    assert AcceptedBy(SLOW_RUN[2].event, LETTER);
  }

  lemma FirstIsPossible()
    ensures Possible(WAITING, [], ClaimBatch([LAST_TRY], 0))
  {
    assert Issued([]) == {};
  }

  lemma Regroup(a: seq<Event>, b: seq<Event>, c: seq<Event>)
    ensures a + b + c == a + (b + c)
  {
  }

  // ---------------------------------------------------------------- the publisher

  /** How the cycle ended. */
  datatype Ending = Finished | Cut | LeaseTooShort | Faulted

  class Publisher {
    const cfg: Config

    constructor (cfg: Config)
      ensures this.cfg == cfg
    {
      this.cfg := cfg;
    }

    /** deliver and what it calls; `log` is the calls made so far. */
    method Deliver(c: Claim, w: Weather, log: seq<Event>, tally: Tally)
      returns (calls: seq<Event>, next: Tally, fault: bool)
      ensures calls == log + DeliveryCalls(cfg, c, w) && (fault <==> Verdict(w).Fault?)
      ensures next.claimed == tally.claimed
      ensures Landed(next) == Landed(tally) + 1
      ensures next.published == tally.published + if Verdict(w).Taken? && w.marked then 1 else 0
      ensures next.deadLettered == tally.deadLettered + if Undeliverable(cfg, c, Verdict(w)) && w.deadReply.Taken? && w.marked then 1 else 0
    {
      calls, next, fault := log, tally, false;
      var outcome := w.boundary;
      if outcome.Taken? {
        calls := calls + [Publish(c, w.accepted, w.reply)];
        outcome := w.reply;
        if outcome.Taken? {
          calls, next := Settle(c, w, calls, next, false);
          return;
        }
      }
      match outcome {
        case Taken =>
        case Fault =>
          calls := calls + [Retry(c, w.retryAt, w.retryAt, w.retryRan)];
          next := next.(retried := next.retried + 1);
          fault := true;
        case Rejected =>
          calls, next := SendDead(c, w, calls, next);
        case Transient =>
          if c.attempt >= cfg.maxAttempts {
            calls, next := SendDead(c, w, calls, next);
          } else {
            calls := calls + [Retry(c, w.retryAt, w.retryAt + w.backoff, w.retryRan)];
            next := next.(retried := next.retried + 1);
          }
      }
    }

    /** The durable transition a delivery earns; a mark that is not recorded is never turned into a retry. */
    method Settle(c: Claim, w: Weather, log: seq<Event>, tally: Tally, dead: bool)
      returns (calls: seq<Event>, next: Tally)
      ensures calls == log + [Mark(c, w.markAt, w.markRan, w.marked)]
      ensures next == if !w.marked then tally.(unrecorded := tally.unrecorded + 1)
                      else if dead then tally.(deadLettered := tally.deadLettered + 1)
                      else tally.(published := tally.published + 1)
      ensures Landed(next) == Landed(tally) + 1 && next.retried == tally.retried
    {
      calls := log + [Mark(c, w.markAt, w.markRan, w.marked)];
      if !w.marked { return calls, tally.(unrecorded := tally.unrecorded + 1); }
      next := if dead then tally.(deadLettered := tally.deadLettered + 1) else tally.(published := tally.published + 1);
    }

    /** deadLetter; a send that fails is retryable. */
    method SendDead(c: Claim, w: Weather, log: seq<Event>, tally: Tally) returns (calls: seq<Event>, next: Tally)
      ensures calls == log + ([DeadLetter(c, w.deadAccepted, w.deadReply)] +
                              if w.deadReply.Taken? then [Mark(c, w.markAt, w.markRan, w.marked)]
                              else [Retry(c, w.retryAt, w.retryAt + w.deadBackoff, w.retryRan)])
      ensures next == if !w.deadReply.Taken? then tally.(retried := tally.retried + 1)
                      else if w.marked then tally.(deadLettered := tally.deadLettered + 1)
                      else tally.(unrecorded := tally.unrecorded + 1)
      ensures Landed(next) == Landed(tally) + 1 && next.published == tally.published
      ensures next.retried > tally.retried <==> !w.deadReply.Taken?
    {
      calls := log + [DeadLetter(c, w.deadAccepted, w.deadReply)];
      if !w.deadReply.Taken? {
        calls := calls + [Retry(c, w.retryAt, w.retryAt + w.deadBackoff, w.retryRan)];
        return calls, tally.(retried := tally.retried + 1);
      }
      calls, next := Settle(c, w, calls, tally, true);
    }

    method ReleaseNow(claims: seq<Claim>, weather: seq<Weather>, from: nat, log: seq<Event>) returns (calls: seq<Event>)
      requires |weather| == |claims| && from <= |claims|
      ensures calls == log + ReleaseCalls(claims, weather, from)
    {
      calls := log;
      for i := from to |claims|
        invariant calls + ReleaseCalls(claims, weather, i) == log + ReleaseCalls(claims, weather, from)
      {
        calls := calls + [Retry(claims[i], weather[i].retryAt, weather[i].retryAt, weather[i].retryRan)];
      }
    }

    /**
     * PublishCycle from the claimed batch on. Unless it is cut short, every claim lands in exactly one of the four
     * counts.
     */
    method PublishCycle(claims: seq<Claim>, weather: seq<Weather>)
      returns (calls: seq<Event>, tally: Tally, ending: Ending)
      requires |weather| == |claims|
      ensures calls == CycleCalls(cfg, claims, weather, 0)
      ensures tally.claimed == |claims|
      ensures Landed(tally) <= |claims| && (Landed(tally) == |claims| || ending.Cut?)
    {
      hide DeliveryCalls, ReleaseCalls, Verdict, Undeliverable, LeaseCovers;
      calls, tally, ending := [], Tally(|claims|, 0, 0, 0, 0), Finished;
      for i := 0 to |claims|
        invariant calls + CycleCalls(cfg, claims, weather, i) == CycleCalls(cfg, claims, weather, 0)
        invariant tally.claimed == |claims| && Landed(tally) == i
      {
        if weather[i].cut { return calls, tally, Cut; }
        if !LeaseCovers(claims[i], weather[i].checkedAt, cfg.publishTimeout) {
          calls := ReleaseNow(claims, weather, i, calls);
          return calls, tally.(retried := tally.retried + |claims| - i), LeaseTooShort;
        }
        ghost var log := calls;
        var fault;
        calls, tally, fault := Deliver(claims[i], weather[i], calls, tally);
        if fault {
          calls := ReleaseNow(claims, weather, i + 1, calls);
          Regroup(log, DeliveryCalls(cfg, claims[i], weather[i]), ReleaseCalls(claims, weather, i + 1));
          return calls, tally.(retried := tally.retried + |claims| - i - 1), Faulted;
        }
        Regroup(log, DeliveryCalls(cfg, claims[i], weather[i]), CycleCalls(cfg, claims, weather, i + 1));
      }
    }
  }

  // ---------------------------------------------------------------- the store

  datatype Failure = InvalidInput | StaleClaim | Unavailable

  const MAX_CLAIM_BATCH := 100

  predicate Earlier(rows: Rows, a: Message, b: Message)
    requires a in rows && b in rows
  {
    rows[a].created < rows[b].created || (rows[a].created == rows[b].created && Less(a, b))
  }

  lemma EarlierOrder(rows: Rows, a: Message, b: Message, c: Message)
    requires a in rows && b in rows && c in rows
    ensures !Earlier(rows, a, a) && (Earlier(rows, a, b) || a == b || Earlier(rows, b, a))
    ensures Earlier(rows, a, b) && Earlier(rows, b, c) ==> Earlier(rows, a, c)
  {
    LessIrreflexive(a);
    LessTotal(a, b);
    if Less(a, b) && Less(b, c) { LessTransitive(a, b, c); }
  }

  ghost predicate Eligible(rows: Rows, now: int, locked: set<Message>, m: Message) {
    m in rows && m !in locked && Claimable(rows[m], now)
  }

  /** The eligible rows a claim takes before this one. */
  ghost function Ahead(rows: Rows, now: int, locked: set<Message>, m: Message): set<Message>
    requires m in rows
  {
    set x | x in rows && Eligible(rows, now, locked, x) && Earlier(rows, x, m)
  }

  /** The row is among the oldest eligible ones, as many as there are tokens. */
  ghost predicate Chosen(rows: Rows, now: int, locked: set<Message>, limit: nat, m: Message) {
    Eligible(rows, now, locked, m) && |Ahead(rows, now, locked, m)| < limit
  }

  /** What a claim picks: eligible rows, in order, and none left behind that is older than one of them. */
  ghost predicate Picks(rows: Rows, now: int, locked: set<Message>, limit: nat, picked: seq<Message>) {
    && |picked| <= limit
    && (forall i :: 0 <= i < |picked| ==> Eligible(rows, now, locked, picked[i]))
    && (forall i, j :: 0 <= i < j < |picked| ==>
         picked[i] in rows && picked[j] in rows && picked[i] != picked[j] && Earlier(rows, picked[i], picked[j]))
    && (forall m, i :: Eligible(rows, now, locked, m) && m !in picked && 0 <= i < |picked| ==>
         picked[i] in rows && Earlier(rows, picked[i], m))
    && (|picked| < limit ==> forall m :: Eligible(rows, now, locked, m) ==> m in picked)
  }

  function Members(s: seq<Message>): (r: set<Message>)
    ensures forall x :: x in r <==> x in s
  {
    set x | x in s
  }

  lemma {:induction false} MembersCount(s: seq<Message>)
    requires forall i, j :: 0 <= i < j < |s| ==> s[i] != s[j]
    ensures |Members(s)| == |s|
  {
    if s != [] {
      var n := |s| - 1;
      MembersCount(s[..n]);
      assert s == s[..n] + [s[n]];
      assert Members(s) == Members(s[..n]) + {s[n]};
    }
  }

  /** A claim picks exactly the chosen rows. */
  lemma PicksAreChosen(rows: Rows, now: int, locked: set<Message>, limit: nat, picked: seq<Message>, m: Message)
    requires Picks(rows, now, locked, limit, picked)
    ensures m in picked <==> Chosen(rows, now, locked, limit, m)
  {
    hide Earlier, Claimable;
    MembersCount(picked);
    if m in picked {
      var i :| 0 <= i < |picked| && picked[i] == m;
      MembersCount(picked[..i]);
      forall x | x in Ahead(rows, now, locked, m)
        ensures x in Members(picked[..i])
      {
        AheadIsBefore(rows, now, locked, limit, picked, i, x);
      }
      Fewer(Ahead(rows, now, locked, m), Members(picked[..i]));
    } else if Eligible(rows, now, locked, m) {
      forall x | x in Members(picked) ensures x in Ahead(rows, now, locked, m) { }
      Fewer(Members(picked), Ahead(rows, now, locked, m));
    }
  }

  lemma AheadIsBefore(rows: Rows, now: int, locked: set<Message>, limit: nat, picked: seq<Message>, i: nat, x: Message)
    requires Picks(rows, now, locked, limit, picked) && i < |picked| && picked[i] in rows
    requires x in rows && Eligible(rows, now, locked, x) && Earlier(rows, x, picked[i])
    ensures x in picked[..i]
  {
    hide Earlier, Claimable;
    EarlierOrder(rows, x, picked[i], x);
    EarlierOrder(rows, x, x, x);
    if x in picked {
      var j :| 0 <= j < |picked| && picked[j] == x;
      EarlierOrder(rows, picked[i], x, picked[i]);
      assert j < i;
      assert picked[..i][j] == x;
    }
  }

  lemma Fewer(a: set<Message>, b: set<Message>)
    requires a <= b
    ensures |a| <= |b|
  {
    if a != {} {
      var x :| x in a;
      Fewer(a - {x}, b - {x});
    }
  }

  /** A row whose content does not validate is among those the claim picks, and so the claim is refused whole. */
  ghost predicate Blocked(rows: Rows, now: int, locked: set<Message>, corrupt: set<Message>, limit: nat) {
    exists m :: m in corrupt && Chosen(rows, now, locked, limit, m)
  }

  /**
   * A row that does not validate and has fewer older rows than a claim has tokens blocks every claim from the time it
   * can be claimed on, whatever else is waiting.
   */
  lemma CorruptHeadBlocks(rows: Rows, m: Message, corrupt: set<Message>, now: int, later: int, locked: set<Message>,
                          limit: nat)
    requires m in rows && m in corrupt && m !in locked && Claimable(rows[m], now) && now <= later
    requires |set x | x in rows && Earlier(rows, x, m)| < limit
    ensures Blocked(rows, later, locked, corrupt, limit)
  {
    hide Earlier;
    Fewer(Ahead(rows, later, locked, m), set x | x in rows && Earlier(rows, x, m));
    assert Chosen(rows, later, locked, limit, m);
  }

  const BROKEN: Message := [98]
  const HEALTHY: Message := [104]
  const QUEUE := map[BROKEN := Row(Pending, 0, 0, 0, None, None, None), HEALTHY := Row(Pending, 1, 1, 0, None, None, None)]

  /**
   * A concrete pair: the older row does not validate, and the younger, which does, can be claimed at no time at all.
   */
  lemma ABrokenMessageStarvesItsSibling(later: int, limit: nat)
    requires later >= 1 && limit >= 1
    ensures Eligible(QUEUE, later, {}, HEALTHY) && HEALTHY !in {BROKEN}
    ensures Blocked(QUEUE, later, {}, {BROKEN}, limit)
  {
    assert !Less(BROKEN, BROKEN);
    assert (set x | x in QUEUE && Earlier(QUEUE, x, BROKEN)) == {};
    CorruptHeadBlocks(QUEUE, BROKEN, {BROKEN}, 0, later, {}, limit);
  }

  function Messages(claims: seq<Claim>): set<Message> {
    set c | c in claims :: c.message
  }

  class OutboxStore {
    var rows: Rows

    constructor (rows: Rows)
      ensures this.rows == rows
    {
      this.rows := rows;
    }

    /** The oldest of some rows: ORDER BY created_at, message_id LIMIT 1. */
    method Oldest(s: set<Message>) returns (m: Message)
      requires s != {} && s <= rows.Keys
      ensures m in s && forall x :: x in s && x != m ==> Earlier(rows, m, x)
    {
      hide Earlier;
      m :| m in s;
      var rest := s - {m};
      while rest != {}
        invariant rest <= s && m in s && m !in rest
        invariant forall x :: x in s - rest && x != m ==> Earlier(rows, m, x)
        decreases rest
      {
        var x :| x in rest;
        EarlierOrder(rows, m, x, m);
        if Earlier(rows, x, m) {
          forall y | y in s - rest && y != m ensures Earlier(rows, x, y) { EarlierOrder(rows, x, m, y); }
          m := x;
        }
        rest := rest - {x};
      }
    }

    /** The candidates: claimable rows no competitor has locked, oldest first, one per token. */
    method Candidates(now: int, locked: set<Message>, limit: nat) returns (picked: seq<Message>)
      ensures Picks(rows, now, locked, limit, picked)
      ensures forall m :: m in picked <==> Chosen(rows, now, locked, limit, m)
    {
      hide Earlier, Claimable, Chosen;
      picked := [];
      ghost var eligible := set m | m in rows && m !in locked && Claimable(rows[m], now);
      var rest := set m | m in rows && m !in locked && Claimable(rows[m], now);
      while rest != {} && |picked| < limit
        invariant rest <= eligible && |picked| <= limit
        invariant forall i :: 0 <= i < |picked| ==> picked[i] in eligible && picked[i] !in rest
        invariant forall m :: m in eligible ==> m in rest || m in picked
        invariant forall i, j :: 0 <= i < j < |picked| ==> picked[i] in rows && picked[j] in rows && picked[i] != picked[j] && Earlier(rows, picked[i], picked[j])
        invariant forall m, i :: m in rest && 0 <= i < |picked| ==> picked[i] in rows && Earlier(rows, picked[i], m)
        decreases rest
      {
        var m := Oldest(rest);
        rest := rest - {m};
        picked := picked + [m];
      }
      forall m
        ensures m in picked <==> Chosen(rows, now, locked, limit, m)
      {
        PicksAreChosen(rows, now, locked, limit, picked, m);
      }
    }

    /**
     * ClaimOutbox: all the chosen rows in one transaction, or none. `corrupt` are the rows whose content does not
     * validate; one of them among the chosen refuses the claim, and nothing else does.
     */
    method ClaimOutbox(tokens: seq<Token>, now: int, ttl: int, locked: set<Message>, corrupt: set<Message>)
      returns (r: Result<seq<Claim>, Failure>)
      modifies this
      ensures r.Err? ==> rows == old(rows)
      ensures r == Err(InvalidInput) <==>
                |tokens| == 0 || |tokens| > MAX_CLAIM_BATCH || ttl <= 0 || exists i, j :: 0 <= i < j < |tokens| && tokens[i] == tokens[j]
      ensures r == Err(Unavailable) <==> r != Err(InvalidInput) && Blocked(old(rows), now, locked, corrupt, |tokens|)
      ensures r.Err? ==> r == Err(InvalidInput) || r == Err(Unavailable)
      ensures r.Ok? ==>
                && rows == ClaimRows(old(rows), r.result) && |r.result| <= |tokens| && DistinctClaims(r.result)
                && (forall m :: m in Messages(r.result) <==> Chosen(old(rows), now, locked, |tokens|, m))
                && (forall i :: 0 <= i < |r.result| ==>
                     var c := r.result[i];
                     c.message in old(rows) && c.message !in corrupt && c.token == tokens[i] &&
                     c.expires == now + ttl &&
                     c.attempt == old(rows)[c.message].attempts + 1)
    {
      hide Earlier, ClaimRows, Claimable, Chosen;
      if |tokens| == 0 || |tokens| > MAX_CLAIM_BATCH || ttl <= 0 { return Err(InvalidInput); }
      var repeated := HasRepeats(tokens);
      if repeated { return Err(InvalidInput); }
      var candidates := Candidates(now, locked, |tokens|);
      for i := 0 to |candidates|
        invariant forall j :: 0 <= j < i ==> candidates[j] !in corrupt
      {
        if candidates[i] in corrupt { return Err(Unavailable); }
      }
      var claims: seq<Claim> := [];
      NoClaims(rows);
      for i := 0 to |candidates|
        invariant |claims| == i && rows == ClaimRows(old(rows), claims)
        invariant forall j :: 0 <= j < i ==>
                    claims[j] == Claim(candidates[j], tokens[j], old(rows)[candidates[j]].attempts + 1, now + ttl)
      {
        var m := candidates[i];
        ClaimRowsEffect(old(rows), claims, m);
        assert forall j :: 0 <= j < i ==> claims[j].message != m;
        var c := Claim(m, tokens[i], rows[m].attempts + 1, now + ttl);
        ClaimRowsSnoc(old(rows), claims, c);
        rows := ClaimRow(rows, c);
        claims := claims + [c];
      }
      forall m ensures m in Messages(claims) <==> m in candidates {
        if m in candidates {
          var i :| 0 <= i < |candidates| && candidates[i] == m;
          assert claims[i] in claims && claims[i].message == m;
        }
      }
      return Ok(claims);
    }

    /** MarkOutboxPublished: refused exactly when the caller no longer holds the row. */
    method MarkOutboxPublished(c: Claim, now: int) returns (error: Option<Failure>)
      modifies this
      ensures rows == MarkRow(old(rows), c, now)
      ensures if Held(old(rows), c, now) then error.None? else error == Some(StaleClaim)
    {
      if c.message !in rows { return Some(StaleClaim); }
      var r := rows[c.message];
      if r.token != Some(c.token) || !r.state.Claimed? { return Some(StaleClaim); }
      if r.expires.None? || r.expires.value <= now { return Some(StaleClaim); }
      rows := rows[c.message := r.(state := Published, publishedAt := Some(now), token := None, expires := None)];
      return None;
    }

    /** RetryOutbox. */
    method RetryOutbox(c: Claim, now: int, next: int) returns (error: Option<Failure>)
      modifies this
      ensures rows == if next < now then old(rows) else RetryRow(old(rows), c, now, next)
      ensures error == if next < now then Some(InvalidInput) else if Held(old(rows), c, now) then None else Some(StaleClaim)
    {
      if next < now { return Some(InvalidInput); }
      if c.message !in rows { return Some(StaleClaim); }
      var r := rows[c.message];
      if r.token != Some(c.token) || !r.state.Claimed? { return Some(StaleClaim); }
      if r.expires.None? || r.expires.value <= now { return Some(StaleClaim); }
      rows := rows[c.message := r.(state := Pending, nextAttempt := next, token := None, expires := None)];
      return None;
    }
  }

  method HasRepeats(tokens: seq<Token>) returns (yes: bool)
    ensures yes <==> exists i, j :: 0 <= i < j < |tokens| && tokens[i] == tokens[j]
  {
    var seen: set<Token> := {};
    for i := 0 to |tokens|
      invariant forall t :: t in seen <==> exists j :: 0 <= j < i && tokens[j] == t
      invariant forall j, k :: 0 <= j < k < i ==> tokens[j] != tokens[k]
    {
      if tokens[i] in seen { return true; }
      seen := seen + {tokens[i]};
    }
    return false;
  }

  lemma NoClaims(rows: Rows)
    ensures ClaimRows(rows, []) == rows
  {
  }

  lemma ClaimRowsSnoc(rows: Rows, claims: seq<Claim>, c: Claim)
    requires c.message in rows
    ensures c.message in ClaimRows(rows, claims)
    ensures ClaimRows(rows, claims + [c]) == ClaimRow(ClaimRows(rows, claims), c)
  {
    ClaimRowsEffect(rows, claims, c.message);
    assert (claims + [c])[..|claims|] == claims;
  }
}
