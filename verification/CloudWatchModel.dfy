/** One poll of one log group: read, deliver, wait for the acknowledgement, and only then move the checkpoint. */
module CloudWatchModel {
  import opened Basics

  datatype Config = Config(lookback: int, maxLookback: int, initialLookback: int, maxWindow: int)

  /** What New insists on. */
  predicate ValidConfig(cfg: Config) {
    && 0 < cfg.lookback <= cfg.maxLookback && 0 < cfg.initialLookback <= cfg.maxLookback && 0 < cfg.maxWindow
  }

  /** A native event; `at` is absent when the source gave no timestamp. */
  datatype Event = Event(stream: bytes, at: Option<int>, id: bytes)

  /** What the mapper makes of an event. */
  datatype Verdict = Boundary | Refused | Accepted(recordID: bytes, eventTime: int)

  datatype Checkpoint = Checkpoint(position: int, eventID: bytes, committedAt: int)

  type Positions = map<bytes, Checkpoint>

  /** What one process remembers about the group. */
  datatype State = State(delivered: map<bytes, int>, positions: Positions, loaded: bool)

  const NEW_PROCESS := State(map[], map[], false)

  // ---------------------------------------------------------------- the window

  ghost predicate IsLatest(p: Positions, latest: int) {
    (exists s :: s in p && p[s].position == latest) && forall s :: s in p ==> p[s].position <= latest
  }

  ghost function Latest(p: Positions): (latest: int)
    requires p != map[]
    ensures IsLatest(p, latest)
    decreases |p|
  {
    var s :| s in p;
    var rest := p - {s};
    if rest == map[] then (assert forall x :: x in p ==> x == s || x in rest; p[s].position)
    else
      var l := Latest(rest);
      assert forall x :: x in p ==> x == s || x in rest;
      if p[s].position > l then p[s].position else l
  }

  /** window, given where an unbounded read would start. */
  function Bounded(cfg: Config, wanted: int, now: int): (int, int) {
    var start := if wanted < now - cfg.maxLookback then now - cfg.maxLookback else wanted;
    var end := if start + cfg.maxWindow > now then now else start + cfg.maxWindow;
    (start, if end > start then end else start)
  }

  ghost function Window(cfg: Config, p: Positions, now: int): (int, int) {
    Bounded(cfg, if p == map[] then now - cfg.initialLookback else Latest(p) - cfg.lookback, now)
  }

  // ---------------------------------------------------------------- what a poll reads

  datatype Reading = Reading(at: int, eventID: bytes)

  /** advance over the whole answer: per stream the greatest timestamp, the first event to reach it. */
  function Furthest(events: seq<Event>): map<bytes, Reading> {
    if events == [] then map[] else Advance(Furthest(events[..|events| - 1]), events[|events| - 1])
  }

  function Advance(m: map<bytes, Reading>, e: Event): map<bytes, Reading> {
    if e.at.None? || (e.stream in m && e.at.value <= m[e.stream].at) then m
    else m[e.stream := Reading(e.at.value, e.id)]
  }

  /** The records to deliver: accepted, new in this answer, and not already delivered by this process. */
  function ToSend(events: seq<Event>, verdict: Event -> Verdict,
                  delivered: map<bytes, int>): (records: seq<(bytes, int)>)
  {
    if events == [] then []
    else
      var before := events[..|events| - 1];
      var v := verdict(events[|events| - 1]);
      ToSend(before, verdict, delivered) +
      if v.Accepted? && v.recordID !in Identities(before, verdict) && v.recordID !in delivered
      then [(v.recordID, v.eventTime)] else []
  }

  function Identities(events: seq<Event>, verdict: Event -> Verdict): set<bytes> {
    set e | e in events && verdict(e).Accepted? :: verdict(e).recordID
  }

  function Delivered(m: map<bytes, int>, records: seq<(bytes, int)>): map<bytes, int> {
    if records == [] then m
    else Delivered(m, records[..|records| - 1])[records[|records| - 1].0 := records[|records| - 1].1]
  }

  predicate CrossesBoundary(events: seq<Event>, verdict: Event -> Verdict) {
    exists i :: 0 <= i < |events| && verdict(events[i]).Boundary?
  }

  /** commit: only strictly newer positions, the rest untouched. */
  function Pending(p: Positions, furthest: map<bytes, Reading>, now: int): Positions {
    map s | s in furthest &&
    (s !in p || furthest[s].at > p[s].position) :: Checkpoint(furthest[s].at, furthest[s].eventID, now)
  }

  /** forget. */
  function Remember(m: map<bytes, int>, before: int): map<bytes, int> {
    map id | id in m && m[id] >= before :: m[id]
  }

  // ---------------------------------------------------------------- the poll

  /** What the outside world answers during one poll: the clock, the store, the source, the sink. */
  datatype Answers = Answers(now: int, loads: bool, events: Option<seq<Event>>, acks: bool, commits: bool)

  datatype Effect = Effect(state: State, durable: Positions, sent: seq<(bytes, int)>, acknowledged: bool, ok: bool)

  /** loadCheckpoints: once per process. */
  function Loaded(durable: Positions, st: State, loads: bool): Option<State> {
    if st.loaded then Some(st)
    else if !loads then None
    else Some(st.(positions := st.positions + durable, loaded := true))
  }

  /** pollGroup. */
  ghost function Poll(cfg: Config, durable: Positions, st: State, verdict: Event -> Verdict, a: Answers): Effect {
    var loaded := Loaded(durable, st, a.loads);
    if loaded.None? then Effect(st, durable, [], false, false)
    else
      var st1 :=
        loaded.value.(delivered := Remember(loaded.value.delivered, Window(cfg, loaded.value.positions, a.now).0));
      if a.events.None? then Effect(st1, durable, [], false, false)
      else if a.events.value == [] then Effect(st1, durable, [], false, true)
      else if CrossesBoundary(a.events.value, verdict) then Effect(st1, durable, [], false, false)
      else Deliver(durable, st1, verdict, a)
  }

  function Deliver(durable: Positions, st: State, verdict: Event -> Verdict, a: Answers): Effect
    requires a.events.Some?
  {
    var records := ToSend(a.events.value, verdict, st.delivered);
    if records != [] && !a.acks then Effect(st, durable, records, false, false)
    else
      var st2 := st.(delivered := Delivered(st.delivered, records));
      var pending := Pending(st2.positions, Furthest(a.events.value), a.now);
      if pending == map[] then Effect(st2, durable, records, true, true)
      else if !a.commits then Effect(st2, durable, records, true, false)
      else Effect(st2.(positions := st2.positions + pending), durable + pending, records, true, true)
  }

  // ---------------------------------------------------------------- the answer, summed up

  /** Furthest is exactly the per-stream maximum over the timestamped events. */
  lemma {:induction false} FurthestIsMaximum(events: seq<Event>, s: bytes)
    ensures s in Furthest(events) <==> exists e :: e in events && e.stream == s && e.at.Some?
    ensures s in Furthest(events) ==> exists e :: e in events && e.stream == s && e.at == Some(Furthest(events)[s].at) && e.id == Furthest(events)[s].eventID
    ensures s in Furthest(events) ==> forall e :: e in events && e.stream == s && e.at.Some? ==>
                                        e.at.value <= Furthest(events)[s].at
  {
    if events != [] {
      var n := |events| - 1;
      FurthestIsMaximum(events[..n], s);
      assert events == events[..n] + [events[n]];
    }
  }

  /** Every accepted event of the answer is delivered by this poll or was delivered by this process before. */
  lemma {:induction false} EverythingIsSent(events: seq<Event>, verdict: Event -> Verdict, delivered: map<bytes, int>,
      e: Event)
    requires e in events && verdict(e).Accepted?
    ensures verdict(e).recordID in delivered || exists r :: r in ToSend(events, verdict, delivered) && r.0 == verdict(e).recordID
  {
    var n := |events| - 1;
    assert events == events[..n] + [events[n]];
    var sent := ToSend(events[..n], verdict, delivered);
    if e in events[..n] {
      EverythingIsSent(events[..n], verdict, delivered, e);
      if verdict(e).recordID !in delivered {
        var r :| r in sent && r.0 == verdict(e).recordID;
        assert r in ToSend(events, verdict, delivered);
      }
    } else if verdict(e).recordID in Identities(events[..n], verdict) {
      var f :| f in events[..n] && verdict(f).Accepted? && verdict(f).recordID == verdict(e).recordID;
      EverythingIsSent(events[..n], verdict, delivered, f);
      if verdict(e).recordID !in delivered {
        var r :| r in sent && r.0 == verdict(f).recordID;
        assert r in ToSend(events, verdict, delivered);
      }
    } else if verdict(e).recordID !in delivered {
      var r := (verdict(e).recordID, verdict(e).eventTime);
      assert ToSend(events, verdict, delivered) == sent + [r];
      assert (sent + [r])[|sent|] == r;
    }
  }

  ghost predicate NoRepeats(r: seq<(bytes, int)>) {
    forall i, j :: 0 <= i < j < |r| ==> r[i].0 != r[j].0
  }

  ghost predicate AllNew(r: seq<(bytes, int)>, known: set<bytes>, delivered: map<bytes, int>) {
    forall i :: 0 <= i < |r| ==> r[i].0 in known && r[i].0 !in delivered
  }

  /** No identity is delivered twice in one poll, and none that this process remembers delivering. */
  lemma {:induction false} NothingIsSentTwice(events: seq<Event>, verdict: Event -> Verdict, delivered: map<bytes, int>)
    ensures NoRepeats(ToSend(events, verdict, delivered))
    ensures AllNew(ToSend(events, verdict, delivered), Identities(events, verdict), delivered)
  {
    if events != [] {
      var n := |events| - 1;
      NothingIsSentTwice(events[..n], verdict, delivered);
      assert events == events[..n] + [events[n]];
      var before, known := ToSend(events[..n], verdict, delivered), Identities(events[..n], verdict);
      var v := verdict(events[n]);
      assert forall id :: id in known ==> id in Identities(events, verdict);
      if v.Accepted? && v.recordID !in known && v.recordID !in delivered {
        assert events[n] in events && v.recordID in Identities(events, verdict);
        assert ToSend(events, verdict, delivered) == before + [(v.recordID, v.eventTime)];
      } else {
        assert ToSend(events, verdict, delivered) == before + [] == before;
      }
    }
  }

  lemma {:induction false} DeliveredKeys(m: map<bytes, int>, records: seq<(bytes, int)>)
    ensures forall id :: id in Delivered(m, records) <==> id in m || exists r :: r in records && r.0 == id
  {
    if records != [] {
      var n := |records| - 1;
      DeliveredKeys(m, records[..n]);
      assert records == records[..n] + [records[n]];
    }
  }
}
