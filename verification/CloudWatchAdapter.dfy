/** The adapter's own form: a group's mutable memory, the checkpoint store, and the poll that drives both. */
module CloudWatchAdapter {
  import opened Basics
  import opened CloudWatchModel

  /** One page of the source's answer; `home` is whether it echoed this adapter's own region and group. */
  datatype Page = Page(events: seq<Event>, more: bool, home: bool)

  function Concat(pages: seq<Option<Page>>, n: nat): seq<Event>
    requires n <= |pages|
  {
    if n == 0 then [] else Concat(pages, n - 1) + if pages[n - 1].Some? then pages[n - 1].value.events else []
  }

  /** The first n pages are a whole answer: all arrived from home, and only the last ends it. */
  predicate Whole(pages: seq<Option<Page>>, n: nat) {
    && 0 < n <= |pages|
    && (forall i :: 0 <= i < n ==> pages[i].Some? && pages[i].value.home)
    && (forall i :: 0 <= i < n - 1 ==> pages[i].Some? && pages[i].value.more)
    && !pages[n - 1].value.more
  }

  /** read: an answer is returned whole or not at all; a budget that runs out is a failure, never a truncation. */
  method Read(pages: seq<Option<Page>>, maxPages: nat) returns (events: Option<seq<Event>>, n: nat)
    requires maxPages > 0
    ensures events.Some? <==> exists m: nat :: m <= maxPages && Whole(pages, m)
    ensures events.Some? ==> n <= maxPages && Whole(pages, n) && events.value == Concat(pages, n)
  {
    var collected: seq<Event> := [];
    n := 0;
    while true
      invariant n <= |pages| && n <= maxPages && collected == Concat(pages, n)
      invariant forall i :: 0 <= i < n ==> pages[i].Some? && pages[i].value.home && pages[i].value.more
      invariant n < maxPages
      decreases maxPages - n
    {
      if n == |pages| || pages[n].None? { return None, n; }
      var page := pages[n].value;
      if !page.home { return None, n + 1; }
      collected := collected + page.events;
      n := n + 1;
      if !page.more {
        assert Whole(pages, n);
        return Some(collected), n;
      }
      if n >= maxPages { return None, n; }
    }
  }

  class CheckpointStore {
    var durable: Positions

    constructor ()
      ensures durable == map[]
    {
      durable := map[];
    }

    /** Commit is durable and atomic when it reports success, and writes nothing otherwise. */
    method Commit(pending: Positions, succeeds: bool) returns (ok: bool)
      modifies this
      ensures ok == succeeds && durable == if ok then old(durable) + pending else old(durable)
    {
      if succeeds { durable := durable + pending; }
      ok := succeeds;
    }
  }

  class GroupState {
    const cfg: Config
    const store: CheckpointStore
    var delivered: map<bytes, int>
    var positions: Positions
    var loadedOnce: bool

    constructor (cfg: Config, store: CheckpointStore)
      ensures this.cfg == cfg && this.store == store && Memory() == NEW_PROCESS
    {
      this.cfg, this.store, delivered, positions, loadedOnce := cfg, store, map[], map[], false;
    }

    function Memory(): State
      reads this
    {
      State(delivered, positions, loadedOnce)
    }

    /** loadCheckpoints. */
    method LoadCheckpoints(loads: bool) returns (ok: bool)
      modifies this`positions, this`loadedOnce
      ensures ok == Loaded(store.durable, old(Memory()), loads).Some?
      ensures Memory() == if ok then Loaded(store.durable, old(Memory()), loads).value else old(Memory())
    {
      if loadedOnce { return true; }
      if !loads { return false; }
      positions := positions + store.durable;
      loadedOnce := true;
      return true;
    }

    /** window. */
    method ReadWindow(now: int) returns (start: int, end: int)
      ensures (start, end) == Window(cfg, positions, now)
    {
      start := now - cfg.initialLookback;
      if positions != map[] {
        var first :| first in positions;
        var latest, best, rest := positions[first].position, first, positions.Keys - {first};
        while rest != {}
          invariant rest < positions.Keys && best in positions && positions[best].position == latest
          invariant forall s :: s in positions && s !in rest ==> positions[s].position <= latest
          decreases rest
        {
          var s :| s in rest;
          if positions[s].position > latest { latest, best := positions[s].position, s; }
          rest := rest - {s};
        }
        assert IsLatest(positions, latest) && IsLatest(positions, Latest(positions));
        start := latest - cfg.lookback;
      }
      var floor := now - cfg.maxLookback;
      if start < floor { start := floor; }
      end := start + cfg.maxWindow;
      if end > now { end := now; }
      if end <= start { end := start; }
    }

    /** forget: deletes one remembered delivery at a time. */
    method Forget(before: int)
      modifies this`delivered
      ensures delivered == Remember(old(delivered), before)
    {
      var pending := delivered.Keys;
      while pending != {}
        invariant forall id :: id in delivered <==>
                    id in old(delivered) && (id in pending || old(delivered)[id] >= before)
        invariant forall id :: id in delivered ==> delivered[id] == old(delivered)[id]
        invariant pending <= old(delivered).Keys
        decreases pending
      {
        var id :| id in pending;
        if delivered[id] < before { delivered := delivered - {id}; }
        pending := pending - {id};
      }
      assert delivered == Remember(old(delivered), before);
    }

    /** The mapping loop of pollGroup: positions advance with every event, records only with new deliverable ones. */
    method MapEvents(events: seq<Event>, verdict: Event -> Verdict)
      returns (furthest: map<bytes, Reading>, records: seq<(bytes, int)>, crossed: bool)
      ensures crossed <==> CrossesBoundary(events, verdict)
      ensures !crossed ==> furthest == Furthest(events) && records == ToSend(events, verdict, delivered)
    {
      hide Furthest, ToSend, Identities, Advance;
      furthest, records, crossed := map[], [], false;
      var seen: set<bytes> := {};
      NothingMapped(events, verdict, delivered);
      for i := 0 to |events|
        invariant !crossed && furthest == Furthest(events[..i]) && records == ToSend(events[..i], verdict, delivered)
        invariant seen == Identities(events[..i], verdict)
        invariant forall j :: 0 <= j < i ==> !verdict(events[j]).Boundary?
      {
        var event := events[i];
        var v := verdict(event);
        if v.Boundary? { return furthest, records, true; }
        MappedSnoc(events, i, verdict, delivered);
        furthest := AdvanceTo(furthest, event);
        if v.Refused? { continue; }
        if v.recordID in seen { continue; }
        seen := seen + {v.recordID};
        if v.recordID in delivered { continue; }
        records := records + [(v.recordID, v.eventTime)];
      }
      assert events[..|events|] == events;
    }

    /** commit: sorted by stream in the original, which the map cannot tell apart. */
    method CommitPositions(furthest: map<bytes, Reading>, now: int, succeeds: bool) returns (ok: bool)
      modifies this`positions, store
      ensures var pending := Pending(old(positions), furthest, now);
              ok == (pending == map[] || succeeds) &&
              positions == (if ok then old(positions) + pending else old(positions)) &&
              store.durable == (if ok then old(store.durable) + pending else old(store.durable))
    {
      var pending: Positions, rest := map[], furthest.Keys;
      while rest != {}
        invariant rest <= furthest.Keys
        invariant forall s :: s in pending <==> s in Pending(positions, furthest, now) && s !in rest
        invariant forall s :: s in pending ==> pending[s] == Pending(positions, furthest, now)[s]
        decreases rest
      {
        var s :| s in rest;
        rest := rest - {s};
        if s in positions && furthest[s].at <= positions[s].position { continue; }
        pending := pending[s := Checkpoint(furthest[s].at, furthest[s].eventID, now)];
      }
      assert pending == Pending(positions, furthest, now);
      if pending == map[] {
        assert positions + pending == positions && store.durable + pending == store.durable;
        return true;
      }
      ok := store.Commit(pending, succeeds);
      if ok { positions := positions + pending; }
    }

    /** pollGroup. */
    method PollGroup(verdict: Event -> Verdict, a: Answers) returns (ok: bool)
      modifies this`delivered, this`positions, this`loadedOnce, store
      ensures var eff := Poll(cfg, old(store.durable), old(Memory()), verdict, a);
              Memory() == eff.state && store.durable == eff.durable && ok == eff.ok
    {
      hide Window, Furthest, ToSend, Pending, CrossesBoundary, Delivered, Remember;
      var loaded := LoadCheckpoints(a.loads);
      if !loaded { return false; }
      var start, end := ReadWindow(a.now);
      assert start == Window(cfg, positions, a.now).0;
      Forget(start);
      if a.events.None? { return false; }
      var events := a.events.value;
      if |events| == 0 { return true; }
      var furthest, records, crossed := MapEvents(events, verdict);
      if crossed { return false; }
      if |records| > 0 {
        if !a.acks { return false; }
        NoteDeliveries(records);
      } else {
        NoDeliveries(delivered);
      }
      ok := CommitPositions(furthest, a.now, a.commits);
      EmptyPending(positions, store.durable);
    }

    method NoteDeliveries(records: seq<(bytes, int)>)
      modifies this`delivered
      ensures delivered == Delivered(old(delivered), records)
    {
      for i := 0 to |records|
        invariant delivered == Delivered(old(delivered), records[..i])
      {
        assert records[..i + 1][..i] == records[..i];
        delivered := delivered[records[i].0 := records[i].1];
      }
      assert records[..|records|] == records;
    }
  }

  method AdvanceTo(positions: map<bytes, Reading>, event: Event) returns (next: map<bytes, Reading>)
    ensures next == Advance(positions, event)
  {
    if event.at.None? { return positions; }
    if event.stream in positions && event.at.value <= positions[event.stream].at { return positions; }
    return positions[event.stream := Reading(event.at.value, event.id)];
  }

  lemma NothingMapped(events: seq<Event>, verdict: Event -> Verdict, delivered: map<bytes, int>)
    ensures Furthest(events[..0]) == map[] && ToSend(events[..0], verdict, delivered) == [] && Identities(events[..0], verdict) == {}
  {
  }

  lemma IdentitiesSnoc(events: seq<Event>, event: Event, verdict: Event -> Verdict)
    ensures Identities(events + [event], verdict)
            == Identities(events, verdict) + if verdict(event).Accepted? then {verdict(event).recordID} else {}
  {
    var more := events + [event];
    forall id ensures id in Identities(more, verdict) <==>
                      id in Identities(events, verdict) || (verdict(event).Accepted? && id == verdict(event).recordID) {
      if id in Identities(events, verdict) {
        var e :| e in events && verdict(e).Accepted? && verdict(e).recordID == id;
        assert e in more;
      }
      assert event in more;
    }
  }

  /** What one more event adds to the mapping loop's three accumulators. */
  lemma MappedSnoc(events: seq<Event>, i: nat, verdict: Event -> Verdict, delivered: map<bytes, int>)
    requires i < |events|
    ensures var e, v, seen := events[i], verdict(events[i]), Identities(events[..i], verdict);
            && Furthest(events[..i + 1]) == Advance(Furthest(events[..i]), e)
            && Identities(events[..i + 1], verdict) == seen + (if v.Accepted? then {v.recordID} else {})
            && ToSend(events[..i + 1], verdict, delivered)
               == if v.Accepted? && v.recordID !in seen && v.recordID !in delivered
                  then ToSend(events[..i], verdict, delivered) + [(v.recordID, v.eventTime)] else ToSend(events[..i], verdict, delivered)
  {
    assert events[..i + 1][..i] == events[..i] && events[..i + 1] == events[..i] + [events[i]];
    IdentitiesSnoc(events[..i], events[i], verdict);
    hide Identities;
    assert ToSend(events[..i], verdict, delivered) + [] == ToSend(events[..i], verdict, delivered);
  }

  lemma NoDeliveries(m: map<bytes, int>)
    ensures Delivered(m, []) == m
  {
  }

  lemma EmptyPending(p: Positions, q: Positions)
    ensures p + map[] == p && q + map[] == q
  {
  }
}
