/** Runs of polls, failures and restarts: what a durable checkpoint may pass, and what the windows cover. */
module CloudWatchRuns {
  import opened Basics
  import opened CloudWatchModel

  /** The store, one process, and the history no process has: what was read, acknowledged and refused. */
  datatype World = World(durable: Positions, state: State, read: set<Event>, acked: set<bytes>, refused: set<Event>)

  datatype Step = PollStep(verdict: Event -> Verdict, answers: Answers) | Restart

  /** An event keeps its record identity however often it is read. */
  ghost predicate Consistent(identity: Event -> bytes, step: Step) {
    step.PollStep? ==> forall e :: step.verdict(e).Accepted? ==> step.verdict(e).recordID == identity(e)
  }

  predicate Settled(w: World, identity: Event -> bytes, e: Event) {
    e in w.refused || identity(e) in w.acked
  }

  /** The poll got as far as an answer from the source. */
  predicate Answered(w: World, step: Step) {
    step.PollStep? && Loaded(w.durable, w.state, step.answers.loads).Some? && step.answers.events.Some?
  }

  function EventsOf(w: World, step: Step): set<Event> {
    if Answered(w, step) then set e | e in step.answers.events.value else {}
  }

  ghost function Next(cfg: Config, w: World, step: Step): World {
    if step.Restart? then w.(state := NEW_PROCESS)
    else
      var eff := Poll(cfg, w.durable, w.state, step.verdict, step.answers);
      var crossed := Answered(w, step) && CrossesBoundary(step.answers.events.value, step.verdict);
      World(eff.durable, eff.state, w.read + EventsOf(w, step),
            w.acked + (if eff.acknowledged then set r | r in eff.sent :: r.0 else {}),
            w.refused + (if crossed then {} else set e | e in EventsOf(w, step) && step.verdict(e).Refused?))
  }

  ghost predicate Inv(w: World) {
    && (forall id :: id in w.state.delivered ==> id in w.acked)
    && (if w.state.loaded then w.state.positions == w.durable else w.state.positions == map[])
  }

  /** The process believes what the store holds, and remembers only acknowledged deliveries, at all times. */
  lemma InvStep(cfg: Config, w: World, step: Step)
    requires Inv(w)
    ensures Inv(Next(cfg, w, step))
  {
    if step.PollStep? {
      var eff := Poll(cfg, w.durable, w.state, step.verdict, step.answers);
      hide Window, Furthest, ToSend, Delivered, CrossesBoundary, Pending;
      var loaded := Loaded(w.durable, w.state, step.answers.loads);
      if loaded.Some? {
        assert map[] + w.durable == w.durable;
        if eff.acknowledged {
          var remembered := Remember(loaded.value.delivered, Window(cfg, loaded.value.positions, step.answers.now).0);
          DeliveredKeys(remembered, eff.sent);
          forall id | id in eff.state.delivered ensures id in Next(cfg, w, step).acked {
            if id !in remembered { var r :| r in eff.sent && r.0 == id; }
          }
        }
      }
    }
  }

  /** A poll reads from the durable positions, whether it loaded them just now or long ago. */
  ghost function WindowOf(cfg: Config, w: World, now: int): (int, int) {
    Window(cfg, w.durable, now)
  }

  lemma LoadedPositions(w: World, loads: bool)
    requires Inv(w) && Loaded(w.durable, w.state, loads).Some?
    ensures Loaded(w.durable, w.state, loads).value.positions == w.durable
    ensures forall id :: id in Loaded(w.durable, w.state, loads).value.delivered ==> id in w.acked
  {
    assert map[] + w.durable == w.durable;
  }

  // ---------------------------------------------------------------- durable positions only move forward

  predicate NotBehind(p: Positions, p': Positions) {
    forall s :: s in p ==> s in p' && p[s].position <= p'[s].position
  }

  lemma DurableNeverDecreases(cfg: Config, w: World, step: Step)
    requires Inv(w)
    ensures NotBehind(w.durable, Next(cfg, w, step).durable)
  {
    hide Window, Furthest, ToSend, Delivered, CrossesBoundary;
    if step.PollStep? && Loaded(w.durable, w.state, step.answers.loads).Some? {
      LoadedPositions(w, step.answers.loads);
    }
  }

  // ---------------------------------------------------------------- a commit settles everything it read

  lemma ReadIsSettled(cfg: Config, w: World, identity: Event -> bytes, step: Step, e: Event)
    requires Inv(w) && Consistent(identity, step) && Answered(w, step) && e in step.answers.events.value
    requires Poll(cfg, w.durable, w.state, step.verdict, step.answers).acknowledged
    ensures Settled(Next(cfg, w, step), identity, e)
  {
    var a, w' := step.answers, Next(cfg, w, step);
    var events := a.events.value;
    LoadedPositions(w, a.loads);
    var loaded := Loaded(w.durable, w.state, a.loads).value;
    var remembered := Remember(loaded.delivered, Window(cfg, loaded.positions, a.now).0);
    hide Window, Furthest, Pending, ToSend, Delivered, Loaded;
    var i :| 0 <= i < |events| && events[i] == e;
    assert !step.verdict(events[i]).Boundary?;
    if step.verdict(e).Accepted? {
      EverythingIsSent(events, step.verdict, remembered, e);
      if step.verdict(e).recordID !in remembered {
        var r :| r in ToSend(events, step.verdict, remembered) && r.0 == step.verdict(e).recordID;
      }
    }
  }

  /** A poll that moves any checkpoint has had every event of its answer acknowledged or permanently refused. */
  lemma CommitSettlesEverythingRead(cfg: Config, w: World, identity: Event -> bytes, step: Step)
    requires Inv(w) && Consistent(identity, step) && Next(cfg, w, step).durable != w.durable
    ensures Answered(w, step) && forall e :: e in step.answers.events.value ==> Settled(Next(cfg, w, step), identity, e)
  {
    hide Window, Furthest, ToSend, Delivered, Pending, Settled;
    forall e | e in step.answers.events.value ensures Settled(Next(cfg, w, step), identity, e) {
      ReadIsSettled(cfg, w, identity, step, e);
    }
  }

  // ---------------------------------------------------------------- what a checkpoint may pass

  ghost predicate Outstanding(w: World, identity: Event -> bytes, e: Event) {
    e in w.read && e.at.Some? && !Settled(w, identity, e)
  }

  predicate Passed(p: Positions, e: Event) {
    e.at.Some? && e.stream in p && e.at.value <= p[e.stream].position
  }

  /** The step moved a checkpoint past an event that some cycle read and that nobody took. */
  ghost predicate Skips(cfg: Config, w: World, identity: Event -> bytes, step: Step, e: Event) {
    Outstanding(Next(cfg, w, step), identity, e) && Passed(Next(cfg, w, step).durable, e) && !Passed(w.durable, e)
  }

  predicate Within(e: Event, window: (int, int)) {
    e.at.Some? && window.0 <= e.at.value < window.1
  }

  /** The source honours the query bounds and returns again whatever it once returned in that range. */
  ghost predicate Honest(cfg: Config, w: World, step: Step) {
    Answered(w, step) ==>
      && (forall e :: e in step.answers.events.value && e.at.Some? ==> Within(e, WindowOf(cfg, w, step.answers.now)))
      && (forall e :: e in w.read && Within(e, WindowOf(cfg, w, step.answers.now)) ==> e in step.answers.events.value)
  }

  /** The window about to be read still reaches back to every event nobody took. */
  ghost predicate Covers(cfg: Config, w: World, identity: Event -> bytes, now: int) {
    forall e :: Outstanding(w, identity, e) && !Passed(w.durable, e) ==> WindowOf(cfg, w, now).0 <= e.at.value
  }

  lemma PassedByThisAnswer(cfg: Config, w: World, step: Step, e: Event)
    requires Inv(w) && Passed(Next(cfg, w, step).durable, e) && !Passed(w.durable, e)
    ensures Answered(w, step)
    ensures exists f :: f in step.answers.events.value && f.stream == e.stream && f.at.Some? && e.at.value <= f.at.value
  {
    hide Window, ToSend, Delivered;
    if step.PollStep? && Loaded(w.durable, w.state, step.answers.loads).Some? {
      LoadedPositions(w, step.answers.loads);
      if step.answers.events.Some? {
        FurthestIsMaximum(step.answers.events.value, e.stream);
        hide Furthest;
      }
    }
  }

  /** What an honest answer passes, inside the window, it contains. */
  lemma PassedWasRead(cfg: Config, w: World, step: Step, e: Event)
    requires Inv(w) && Honest(cfg, w, step) && Passed(Next(cfg, w, step).durable, e) && !Passed(w.durable, e)
    requires e in w.read && step.PollStep? && WindowOf(cfg, w, step.answers.now).0 <= e.at.value
    ensures e in EventsOf(w, step)
  {
    PassedByThisAnswer(cfg, w, step, e);
    hide Next, WindowOf;
    var f :| f in step.answers.events.value && f.stream == e.stream && f.at.Some? && e.at.value <= f.at.value;
    assert Within(f, WindowOf(cfg, w, step.answers.now));
    assert Within(e, WindowOf(cfg, w, step.answers.now));
  }

  /** Under an honest source no step skips an event while the window still covers the outstanding ones. */
  lemma NothingCoveredIsSkipped(cfg: Config, w: World, identity: Event -> bytes, step: Step, e: Event)
    requires Inv(w) && Consistent(identity, step) && Honest(cfg, w, step)
    requires step.PollStep? ==> Covers(cfg, w, identity, step.answers.now)
    ensures !Skips(cfg, w, identity, step, e)
  {
    hide Next, WindowOf, Settled, Honest, Passed;
    if Skips(cfg, w, identity, step, e) {
      StaysOutstanding(cfg, w, identity, step, e);
      if step.PollStep? && Outstanding(w, identity, e) { PassedWasRead(cfg, w, step, e); }
      CommitSettlesEverythingRead(cfg, w, identity, step);
      assert false;
    }
  }

  /** An event outstanding afterwards that this answer did not contain was outstanding before. */
  lemma StaysOutstanding(cfg: Config, w: World, identity: Event -> bytes, step: Step, e: Event)
    requires Outstanding(Next(cfg, w, step), identity, e)
    ensures Outstanding(w, identity, e) || e in EventsOf(w, step)
  {
    hide Poll, CrossesBoundary;
  }

  ghost function Listing(s: set<Event>): (l: seq<Event>)
    ensures forall e :: e in l <==> e in s
    decreases s
  {
    if s == {} then []
    else
      var e :| e in s;
      [e] + Listing(s - {e})
  }

  /** An answer that is honest and leaves `e` behind. */
  ghost function SkippingStep(cfg: Config, w: World, e: Event, now: int): Step {
    var window := WindowOf(cfg, w, now);
    PollStep(_ => Refused,
             Answers(now, true, Some(Listing(set x | x in w.read && Within(x, window)) + [Event(e.stream, Some(window.0), [])]), true, true))
  }

  /** An outstanding event the window no longer reaches can be skipped by a perfectly honest answer. */
  lemma UncoveredCanBeSkipped(cfg: Config, w: World, identity: Event -> bytes, e: Event, now: int)
    requires Inv(w) && Outstanding(w, identity, e) && !Passed(w.durable, e)
    requires e.at.value < WindowOf(cfg, w, now).0 < WindowOf(cfg, w, now).1
    ensures var step := SkippingStep(cfg, w, e, now);
            Consistent(identity, step) && Honest(cfg, w, step) && Skips(cfg, w, identity, step, e)
  {
    var step := SkippingStep(cfg, w, e, now);
    var window := WindowOf(cfg, w, now);
    var events := step.answers.events.value;
    var last := Event(e.stream, Some(window.0), []);
    assert last == events[|events| - 1];
    assert forall x :: x in events ==> x == last || (x in w.read && Within(x, window));
    LoadedPositions(w, true);
    FurthestIsMaximum(events, e.stream);
    assert last in events;
    SkipFurthest(cfg, w, e, now, step);
  }

  lemma {:induction false} NothingToSend(events: seq<Event>, delivered: map<bytes, int>)
    ensures ToSend(events, _ => Refused, delivered) == []
  {
    if events != [] { NothingToSend(events[..|events| - 1], delivered); }
  }

  lemma SkipFurthest(cfg: Config, w: World, e: Event, now: int, step: Step)
    requires Inv(w) && step == SkippingStep(cfg, w, e, now) && e.at.Some? && !Passed(w.durable, e)
    requires e.at.value < WindowOf(cfg, w, now).0
    requires var events := step.answers.events.value;
             e.stream in Furthest(events) && WindowOf(cfg, w, now).0 <= Furthest(events)[e.stream].at
    ensures Passed(Next(cfg, w, step).durable, e) && Next(cfg, w, step).acked == w.acked
  {
    hide Window, Furthest;
    var a := step.answers;
    LoadedPositions(w, true);
    var st := Loaded(w.durable, w.state, true).value;
    var st1 := st.(delivered := Remember(st.delivered, Window(cfg, st.positions, now).0));
    NothingToSend(a.events.value, st1.delivered);
    assert step.verdict == _ => Refused;
    var pending := Pending(w.durable, Furthest(a.events.value), now);
    assert e.stream in pending;
    hide ToSend, Remember;
    assert Poll(cfg, w.durable, w.state, step.verdict, a) == Deliver(w.durable, st1, step.verdict, a);
  }

  lemma PassedNeedsAWindow(cfg: Config, w: World, step: Step, e: Event)
    requires Inv(w) && Honest(cfg, w, step) && Passed(Next(cfg, w, step).durable, e) && !Passed(w.durable, e)
    ensures step.PollStep? && WindowOf(cfg, w, step.answers.now).0 < WindowOf(cfg, w, step.answers.now).1
  {
    PassedByThisAnswer(cfg, w, step, e);
    hide Next, WindowOf;
    var f :| f in step.answers.events.value && f.stream == e.stream && f.at.Some? && e.at.value <= f.at.value;
    assert Within(f, WindowOf(cfg, w, step.answers.now));
  }

  /** With nothing to read between the bounds, nothing is passed. */
  lemma EmptyWindowSkipsNothing(cfg: Config, w: World, identity: Event -> bytes, step: Step, e: Event)
    requires Inv(w) && Honest(cfg, w, step)
    requires step.PollStep? ==> WindowOf(cfg, w, step.answers.now).0 >= WindowOf(cfg, w, step.answers.now).1
    ensures !Skips(cfg, w, identity, step, e)
  {
    hide Next, WindowOf, Outstanding, Passed, Honest, Inv;
    if Skips(cfg, w, identity, step, e) {
      PassedNeedsAWindow(cfg, w, step, e);
      assert false;
    }
  }

  /** No honest answer to a poll at `now` can make it skip anything. */
  ghost predicate SafeAt(cfg: Config, w: World, identity: Event -> bytes, now: int) {
    forall step: Step, e: Event :: step.PollStep? && step.answers.now == now && Consistent(identity, step) && Honest(cfg, w, step) ==>
      !Skips(cfg, w, identity, step, e)
  }

  /** Whether a poll could pass anything is decided by its window, before a single event is read. */
  lemma PassingGuardIsExact(cfg: Config, w: World, identity: Event -> bytes, now: int)
    requires Inv(w)
    ensures SafeAt(cfg, w, identity, now) <==>
              Covers(cfg, w, identity, now) || WindowOf(cfg, w, now).0 >= WindowOf(cfg, w, now).1
  {
    hide Next, WindowOf, Honest, Skips, Consistent, Inv;
    if Covers(cfg, w, identity, now) || WindowOf(cfg, w, now).0 >= WindowOf(cfg, w, now).1 {
      forall step: Step, e: Event | step.PollStep? && step.answers.now == now && Consistent(identity, step) && Honest(cfg, w, step)
        ensures !Skips(cfg, w, identity, step, e)
      {
        if Covers(cfg, w, identity, now) {
          NothingCoveredIsSkipped(cfg, w, identity, step, e);
        } else {
          EmptyWindowSkipsNothing(cfg, w, identity, step, e);
        }
      }
    } else {
      var e :| Outstanding(w, identity, e) && !Passed(w.durable, e) && e.at.value < WindowOf(cfg, w, now).0;
      UncoveredCanBeSkipped(cfg, w, identity, e, now);
      assert Skips(cfg, w, identity, SkippingStep(cfg, w, e, now), e);
    }
  }

  // ---------------------------------------------------------------- runs

  ghost predicate IsRun(cfg: Config, identity: Event -> bytes, worlds: seq<World>, steps: seq<Step>) {
    && |worlds| == |steps| + 1 && Inv(worlds[0])
    && forall i :: 0 <= i < |steps| ==>
         Consistent(identity, steps[i]) && worlds[i + 1] == Next(cfg, worlds[i], steps[i])
  }

  lemma {:induction false} InvHolds(cfg: Config, identity: Event -> bytes, worlds: seq<World>, steps: seq<Step>, n: nat)
    requires IsRun(cfg, identity, worlds, steps) && n <= |steps|
    ensures Inv(worlds[n])
  {
    hide Next, Inv;
    if n > 0 {
      InvHolds(cfg, identity, worlds, steps, n - 1);
      InvStep(cfg, worlds[n - 1], steps[n - 1]);
    }
  }

  /** Over any run of polls, failures and restarts no stream's durable position ever decreases. */
  lemma {:induction false} PositionsNeverDecrease(cfg: Config, identity: Event -> bytes, worlds: seq<World>,
      steps: seq<Step>, i: nat, j: nat)
    requires IsRun(cfg, identity, worlds, steps) && i <= j <= |steps|
    ensures NotBehind(worlds[i].durable, worlds[j].durable)
    decreases j
  {
    if i < j {
      hide Next, Inv;
      PositionsNeverDecrease(cfg, identity, worlds, steps, i, j - 1);
      InvHolds(cfg, identity, worlds, steps, j - 1);
      DurableNeverDecreases(cfg, worlds[j - 1], steps[j - 1]);
    }
  }

  // ---------------------------------------------------------------- a failed poll is read again

  /** How far back a window reaches: the initial lookback until there is a checkpoint, then the maximum lookback. */
  function Reach(cfg: Config, p: Positions): int {
    if p == map[] then cfg.initialLookback else cfg.maxLookback
  }

  /** After a poll that committed nothing, the next window still holds its events until the lookback moves past them. */
  lemma FailedPollIsReread(cfg: Config, w: World, step: Step, later: int, e: Event)
    requires ValidConfig(cfg) && Inv(w) && Honest(cfg, w, step) && Answered(w, step)
    requires e in step.answers.events.value && e.at.Some? && Next(cfg, w, step).durable == w.durable
    ensures WindowOf(cfg, Next(cfg, w, step), later).0 <= e.at.value <==> later - Reach(cfg, w.durable) <= e.at.value
  {
    hide Next;
    assert Within(e, WindowOf(cfg, w, step.answers.now));
  }

  // ---------------------------------------------------------------- the windows have no hole

  lemma WindowBounds(cfg: Config, p: Positions, now: int)
    requires ValidConfig(cfg)
    ensures var (start, end) := Window(cfg, p, now);
            start <= end <= start + cfg.maxWindow && start >= now - cfg.maxLookback && (end <= now || end == start)
  {
  }

  /** A position that a poll moved is that of an event of its window. */
  lemma MovedInside(cfg: Config, w: World, step: Step, s: bytes)
    requires Inv(w) && Honest(cfg, w, step) && Answered(w, step) && s in Next(cfg, w, step).durable
    ensures Next(cfg, w, step).durable[s].position < WindowOf(cfg, w, step.answers.now).1 ||
            (s in w.durable && Next(cfg, w, step).durable[s] == w.durable[s])
  {
    LoadedPositions(w, step.answers.loads);
    var events := step.answers.events.value;
    FurthestIsMaximum(events, s);
    hide Furthest, ToSend, Delivered, Window, CrossesBoundary;
    if !(s in w.durable && Next(cfg, w, step).durable[s] == w.durable[s]) {
      assert s in Furthest(events) && Next(cfg, w, step).durable[s].position == Furthest(events)[s].at;
      var f :| f in events && f.stream == s && f.at == Some(Furthest(events)[s].at);
      assert Within(f, WindowOf(cfg, w, step.answers.now));
    }
  }

  /** The answer only holds events of its window, so no committed position lies past the window's end. */
  lemma LatestAfterPoll(cfg: Config, w: World, step: Step)
    requires Inv(w) && Honest(cfg, w, step) && Answered(w, step) && ValidConfig(cfg)
    requires Next(cfg, w, step).durable != map[]
    ensures var latest := Latest(Next(cfg, w, step).durable);
            latest < WindowOf(cfg, w, step.answers.now).1 || (w.durable != map[] && latest <= Latest(w.durable))
  {
    hide Next, WindowOf, Honest;
    var p := Next(cfg, w, step).durable;
    var s :| s in p && p[s].position == Latest(p);
    MovedInside(cfg, w, step, s);
    if s in w.durable && p[s] == w.durable[s] { assert w.durable[s].position <= Latest(w.durable); }
  }

  /** Two successive successful polls close enough in time leave no gap between their windows. */
  lemma WindowsMeet(cfg: Config, w: World, step: Step, later: int)
    requires Inv(w) && Honest(cfg, w, step) && Answered(w, step) && ValidConfig(cfg)
    requires later - step.answers.now <= cfg.maxWindow && later - step.answers.now <= cfg.initialLookback
    requires later - step.answers.now <= cfg.maxLookback
    ensures WindowOf(cfg, Next(cfg, w, step), later).0 <= WindowOf(cfg, w, step.answers.now).1
  {
    var w' := Next(cfg, w, step);
    DurableNeverDecreases(cfg, w, step);
    if w'.durable != map[] { LatestAfterPoll(cfg, w, step); }
    hide Next;
    if w.durable != map[] {
      var s :| s in w.durable;
      assert s in w'.durable;
    }
  }

  /** The poll returned without an error. */
  ghost predicate Succeeds(cfg: Config, w: World, step: Step) {
    step.PollStep? && Poll(cfg, w.durable, w.state, step.verdict, step.answers).ok
  }

  lemma SuccessAnswers(cfg: Config, w: World, step: Step)
    requires Succeeds(cfg, w, step)
    ensures Answered(w, step)
  {
  }

  lemma FailureChangesNothingDurable(cfg: Config, w: World, step: Step)
    requires !Succeeds(cfg, w, step)
    ensures Next(cfg, w, step).durable == w.durable
  {
    hide Window, Furthest, ToSend, Delivered, CrossesBoundary, Pending;
  }

  /** The last successful poll before step n. */
  ghost function LastSuccess(cfg: Config, worlds: seq<World>, steps: seq<Step>, n: nat): (k: Option<nat>)
    requires n <= |steps| && |worlds| == |steps| + 1
    ensures k.Some? ==> k.value < n && Succeeds(cfg, worlds[k.value], steps[k.value])
  {
    if n == 0 then None
    else if Succeeds(cfg, worlds[n - 1], steps[n - 1]) then Some(n - 1)
    else LastSuccess(cfg, worlds, steps, n - 1)
  }

  lemma {:induction false} DurableSinceSuccess(cfg: Config, identity: Event -> bytes, worlds: seq<World>,
      steps: seq<Step>, n: nat, f: nat)
    requires IsRun(cfg, identity, worlds, steps) && f < n <= |steps| && Succeeds(cfg, worlds[f], steps[f])
    ensures LastSuccess(cfg, worlds, steps, n).Some? && f <= LastSuccess(cfg, worlds, steps, n).value
    ensures worlds[n].durable == worlds[LastSuccess(cfg, worlds, steps, n).value + 1].durable
  {
    hide Next, Succeeds, Inv;
    if !Succeeds(cfg, worlds[n - 1], steps[n - 1]) {
      DurableSinceSuccess(cfg, identity, worlds, steps, n - 1, f);
      FailureChangesNothingDurable(cfg, worlds[n - 1], steps[n - 1]);
    }
  }

  /** Successive successful polls are no further apart than the least of the three spans. */
  ghost predicate Punctual(cfg: Config, worlds: seq<World>, steps: seq<Step>)
    requires |worlds| == |steps| + 1
  {
    forall j :: 0 <= j < |steps| && Succeeds(cfg, worlds[j], steps[j]) && LastSuccess(cfg, worlds, steps, j).Some? ==>
      Near(cfg, steps[LastSuccess(cfg, worlds, steps, j).value], steps[j])
  }

  predicate Near(cfg: Config, first: Step, second: Step) {
    first.PollStep? && second.PollStep? &&
    var gap := second.answers.now - first.answers.now;
    gap <= cfg.maxWindow && gap <= cfg.initialLookback && gap <= cfg.maxLookback
  }

  ghost predicate ReadAt(cfg: Config, w: World, step: Step, t: int) {
    Succeeds(cfg, w, step) && var window := WindowOf(cfg, w, step.answers.now); window.0 <= t < window.1
  }

  /** Between the first and the last window every instant was inside some successful poll's window. */
  lemma {:induction false} NoHole(cfg: Config, identity: Event -> bytes, worlds: seq<World>, steps: seq<Step>, f: nat,
                                  l: nat, t: int) returns (k: nat)
    requires IsRun(cfg, identity, worlds, steps) && ValidConfig(cfg) && Punctual(cfg, worlds, steps)
    requires forall i :: 0 <= i < |steps| ==> Honest(cfg, worlds[i], steps[i])
    requires f <= l < |steps| && Succeeds(cfg, worlds[f], steps[f]) && Succeeds(cfg, worlds[l], steps[l])
    requires WindowOf(cfg, worlds[f], steps[f].answers.now).0 <= t < WindowOf(cfg, worlds[l], steps[l].answers.now).1
    ensures f <= k <= l && ReadAt(cfg, worlds[k], steps[k], t)
    decreases l
  {
    hide Next, Succeeds, Inv, Honest, WindowOf;
    k := l;
    if f < l {
      DurableSinceSuccess(cfg, identity, worlds, steps, l, f);
      var p := LastSuccess(cfg, worlds, steps, l).value;
      MeetingWindows(cfg, identity, worlds, steps, p, l);
      SuccessIsPoll(cfg, worlds[p], steps[p]);
      if t < WindowOf(cfg, worlds[p], steps[p].answers.now).1 { k := NoHole(cfg, identity, worlds, steps, f, p, t); }
    }
  }

  lemma SuccessIsPoll(cfg: Config, w: World, step: Step)
    requires Succeeds(cfg, w, step)
    ensures step.PollStep?
  {
  }

  lemma MeetingWindows(cfg: Config, identity: Event -> bytes, worlds: seq<World>, steps: seq<Step>, p: nat, l: nat)
    requires IsRun(cfg, identity, worlds, steps) && ValidConfig(cfg) && p < l < |steps|
    requires Honest(cfg, worlds[p], steps[p])
    requires Succeeds(cfg, worlds[p], steps[p]) && steps[l].PollStep? && Near(cfg, steps[p], steps[l])
    requires worlds[l].durable == worlds[p + 1].durable
    ensures steps[p].PollStep?
    ensures WindowOf(cfg, worlds[l], steps[l].answers.now).0 <= WindowOf(cfg, worlds[p], steps[p].answers.now).1
  {
    InvHolds(cfg, identity, worlds, steps, p);
    SuccessAnswers(cfg, worlds[p], steps[p]);
    hide Next, Succeeds, Inv, Honest, Window;
    WindowsMeet(cfg, worlds[p], steps[p], steps[l].answers.now);
  }
}
