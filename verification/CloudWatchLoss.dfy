/** What a run can lose: an event read, never acknowledged, and out of reach of every window to come. */
module CloudWatchLoss {
  import opened Basics
  import opened CloudWatchModel
  import opened CloudWatchRuns

  /** No poll from `now` on would read the event again, wherever its own stream's checkpoint stands. */
  ghost predicate Lost(cfg: Config, w: World, identity: Event -> bytes, e: Event, now: int) {
    Outstanding(w, identity, e) && forall t :: now <= t ==> e.at.value < WindowOf(cfg, w, t).0
  }

  /** The window about to be read starts no later than any event that was read and that nobody took. */
  ghost predicate Reaches(cfg: Config, w: World, identity: Event -> bytes, now: int) {
    forall e :: Outstanding(w, identity, e) ==> WindowOf(cfg, w, now).0 <= e.at.value
  }

  /** The start of a window only moves forward, with the clock and with the positions. */
  lemma WindowMovesForward(cfg: Config, p: Positions, p': Positions, now: int, t: int)
    requires now <= t && NotBehind(p, p') && (p == map[] ==> p' == map[])
    ensures Window(cfg, p, now).0 <= Window(cfg, p', t).0
  {
    if p != map[] {
      var s :| s in p && p[s].position == Latest(p);
      assert s in p' && p'[s].position <= Latest(p');
    }
  }

  lemma LostIsBehind(cfg: Config, w: World, identity: Event -> bytes, e: Event, now: int)
    ensures Lost(cfg, w, identity, e, now) <==> Outstanding(w, identity, e) && e.at.value < WindowOf(cfg, w, now).0
  {
    hide Outstanding;
    forall t | now <= t ensures WindowOf(cfg, w, now).0 <= WindowOf(cfg, w, t).0 {
      WindowMovesForward(cfg, w.durable, w.durable, now, t);
    }
  }

  lemma ReachesIsNothingLost(cfg: Config, w: World, identity: Event -> bytes, now: int)
    ensures Reaches(cfg, w, identity, now) <==> forall e :: !Lost(cfg, w, identity, e, now)
  {
    hide Settled, WindowOf, Lost;
    forall e
      ensures Lost(cfg, w, identity, e, now) <==> Outstanding(w, identity, e) && e.at.value < WindowOf(cfg, w, now).0
    {
      LostIsBehind(cfg, w, identity, e, now);
    }
  }

  ghost predicate HonestFrom(cfg: Config, worlds: seq<World>, steps: seq<Step>, now: int)
    requires |worlds| == |steps| + 1
  {
    forall i :: 0 <= i < |steps| ==>
      Honest(cfg, worlds[i], steps[i]) && (steps[i].PollStep? ==> now <= steps[i].answers.now)
  }

  /**
   * Once there is a checkpoint, lost is lost: no poll of any later run reads the event again, and every window is past
   * it.
   */
  lemma LostStaysLost(cfg: Config, identity: Event -> bytes, worlds: seq<World>, steps: seq<Step>, e: Event, now: int,
                      n: nat)
    requires IsRun(cfg, identity, worlds, steps) && n <= |steps| && HonestFrom(cfg, worlds, steps, now)
    requires worlds[0].durable != map[] && Lost(cfg, worlds[0], identity, e, now)
    ensures forall t :: now <= t ==> e.at.value < WindowOf(cfg, worlds[n], t).0
    ensures n < |steps| ==> e !in EventsOf(worlds[n], steps[n])
  {
    hide Next, Inv, Settled, Window, Consistent;
    PositionsNeverDecrease(cfg, identity, worlds, steps, 0, n);
    var s :| s in worlds[0].durable;
    assert s in worlds[n].durable;
    forall t | now <= t ensures e.at.value < WindowOf(cfg, worlds[n], t).0 {
      WindowMovesForward(cfg, worlds[0].durable, worlds[n].durable, t, t);
      assert e.at.value < WindowOf(cfg, worlds[0], t).0;
    }
  }

  lemma OutstandingHasTime(w: World, identity: Event -> bytes, e: Event)
    requires Outstanding(w, identity, e)
    ensures e.at.Some? && e in w.read
  {
  }

  // ---------------------------------------------------------------- what one commit may lose

  /** The poll moves a checkpoint and so leaves the event behind every window to come. */
  ghost predicate Loses(cfg: Config, w: World, identity: Event -> bytes, step: Step, e: Event) {
    step.PollStep? && Next(cfg, w, step).durable != w.durable &&
    Lost(cfg, Next(cfg, w, step), identity, e, step.answers.now)
  }

  /** No honest answer to a poll at `now` can make it commit and lose anything. */
  ghost predicate SafeAt(cfg: Config, w: World, identity: Event -> bytes, now: int) {
    forall step: Step, e: Event :: Polls(cfg, w, identity, step, now) ==> !Loses(cfg, w, identity, step, e)
  }

  ghost predicate Polls(cfg: Config, w: World, identity: Event -> bytes, step: Step, now: int) {
    step.PollStep? && step.answers.now == now && Consistent(identity, step) && Honest(cfg, w, step)
  }

  /** The lookback behind the furthest first checkpoint this poll can commit still reaches the event. */
  ghost predicate Regained(cfg: Config, w: World, now: int, e: Event)
    requires e.at.Some?
  {
    w.durable == map[] && Bounded(cfg, WindowOf(cfg, w, now).1 - 1 - cfg.lookback, now).0 <= e.at.value
  }

  /** Every event nobody took is inside the reach of this window, or of the first window after this commit. */
  ghost predicate Spares(cfg: Config, w: World, identity: Event -> bytes, now: int) {
    forall e :: Outstanding(w, identity, e) ==> WindowOf(cfg, w, now).0 <= e.at.value || Regained(cfg, w, now, e)
  }

  lemma SparedIsKept(cfg: Config, w: World, identity: Event -> bytes, step: Step, e: Event)
    requires ValidConfig(cfg) && Inv(w) && step.PollStep? && Polls(cfg, w, identity, step, step.answers.now)
    requires Spares(cfg, w, identity, step.answers.now)
    ensures !Loses(cfg, w, identity, step, e)
  {
    hide Inv, Consistent, Honest;
    if Loses(cfg, w, identity, step, e) {
      LostIsBehind(cfg, Next(cfg, w, step), identity, e, step.answers.now);
      LeftBeyond(cfg, w, identity, step, e);
      OutstandingHasTime(w, identity, e);
      KeptInReach(cfg, w, step, e);
      assert false;
    }
  }

  /** An event still outstanding after a checkpoint moved lies beyond everything that answer could commit. */
  lemma LeftBeyond(cfg: Config, w: World, identity: Event -> bytes, step: Step, e: Event)
    requires Inv(w) && Consistent(identity, step) && Honest(cfg, w, step) && Next(cfg, w, step).durable != w.durable
    requires Outstanding(Next(cfg, w, step), identity, e)
    ensures Answered(w, step) && Outstanding(w, identity, e) && !Within(e, WindowOf(cfg, w, step.answers.now))
  {
    CommitSettlesEverythingRead(cfg, w, identity, step);
    StaysOutstanding(cfg, w, identity, step, e);
    hide Next, WindowOf, Settled;
  }

  /** An event beyond a committing poll's window, or regained by it, is within reach of the next window. */
  lemma KeptInReach(cfg: Config, w: World, step: Step, e: Event)
    requires ValidConfig(cfg) && Inv(w) && Honest(cfg, w, step) && Answered(w, step) && e.at.Some?
    requires !Within(e, WindowOf(cfg, w, step.answers.now)) && Next(cfg, w, step).durable != w.durable
    requires WindowOf(cfg, w, step.answers.now).0 <= e.at.value || Regained(cfg, w, step.answers.now, e)
    ensures WindowOf(cfg, Next(cfg, w, step), step.answers.now).0 <= e.at.value
  {
    DurableNeverDecreases(cfg, w, step);
    HeldStays(w.durable, Next(cfg, w, step).durable);
    LatestAfterPoll(cfg, w, step);
    hide Next, Honest, Inv, Answered;
  }

  lemma HeldStays(p: Positions, p': Positions)
    requires NotBehind(p, p') && p' != p
    ensures p' != map[]
  {
    if p != map[] { var s :| s in p; assert s in p'; }
  }

  lemma EmptyWindowMovesNothing(cfg: Config, w: World, step: Step)
    requires Inv(w) && Honest(cfg, w, step) && step.PollStep?
    requires WindowOf(cfg, w, step.answers.now).0 >= WindowOf(cfg, w, step.answers.now).1
    ensures Next(cfg, w, step).durable == w.durable
  {
    hide Window, ToSend, Delivered, CrossesBoundary;
    if Answered(w, step) {
      LoadedPositions(w, step.answers.loads);
      NoTimesNoReadings(step.answers.events.value);
      assert w.durable + map[] == w.durable;
    }
  }

  lemma {:induction false} NoTimesNoReadings(events: seq<Event>)
    requires forall e :: e in events ==> e.at.None?
    ensures Furthest(events) == map[]
  {
    if events != [] {
      assert events == events[..|events| - 1] + [events[|events| - 1]];
      NoTimesNoReadings(events[..|events| - 1]);
    }
  }

  // ---------------------------------------------------------------- an answer that loses an event

  ghost function Longer(keys: set<bytes>): (n: nat)
    ensures forall k :: k in keys ==> |k| < n
  {
    if keys == {} then 0
    else
      var k :| k in keys;
      var n := Longer(keys - {k});
      if |k| < n then n else |k| + 1
  }

  /** A stream without a checkpoint; the event's own, when it has none. */
  ghost function FreeStream(p: Positions, e: Event): (s: bytes)
    ensures s !in p && (e.stream !in p ==> s == e.stream)
  {
    if e.stream !in p then e.stream else seq(Longer(p.Keys), i => 0 as byte)
  }

  /**
   * An honest answer that holds everything read before in its window, and at the window's end one event of a new
   * stream.
   */
  ghost function LosingStep(cfg: Config, w: World, e: Event, now: int): Step {
    var window := WindowOf(cfg, w, now);
    var last := Event(FreeStream(w.durable, e), Some(window.1 - 1), []);
    PollStep(_ => Refused, Answers(now, true, Some(Listing(set x | x in w.read && Within(x, window)) + [last]), true, true))
  }

  lemma LosingIsHonest(cfg: Config, w: World, identity: Event -> bytes, e: Event, now: int)
    requires Inv(w) && WindowOf(cfg, w, now).0 < WindowOf(cfg, w, now).1
    ensures Polls(cfg, w, identity, LosingStep(cfg, w, e, now), now)
    ensures var step := LosingStep(cfg, w, e, now);
            && Answered(w, step)
            && Event(FreeStream(w.durable, e), Some(WindowOf(cfg, w, now).1 - 1), []) in step.answers.events.value
            && forall x :: x in step.answers.events.value ==> Within(x, WindowOf(cfg, w, now))
  {
    var step := LosingStep(cfg, w, e, now);
    var window := WindowOf(cfg, w, now);
    var events := step.answers.events.value;
    var last := Event(FreeStream(w.durable, e), Some(window.1 - 1), []);
    hide WindowOf, FreeStream;
    assert last == events[|events| - 1];
    assert forall x :: x in events ==> x == last || (x in w.read && Within(x, window));
  }

  /** Whatever is refused for good is not delivered, and a free stream's event moves a checkpoint. */
  lemma LosingCommits(cfg: Config, w: World, e: Event, now: int)
    requires Inv(w) && WindowOf(cfg, w, now).0 < WindowOf(cfg, w, now).1
    ensures var w' := Next(cfg, w, LosingStep(cfg, w, e, now));
            && FreeStream(w.durable, e) in w'.durable && w'.durable != w.durable && w'.acked == w.acked
            && WindowOf(cfg, w, now).1 - 1 <= w'.durable[FreeStream(w.durable, e)].position
            && w'.refused == w.refused + EventsOf(w, LosingStep(cfg, w, e, now)) && w.read <= w'.read
  {
    LosingIsHonest(cfg, w, _ => [], e, now);
    var step, s := LosingStep(cfg, w, e, now), FreeStream(w.durable, e);
    RefusedCommits(cfg, w, step, s);
    hide Next, WindowOf, FreeStream, Furthest, EventsOf;
    FurthestIsMaximum(step.answers.events.value, s);
  }

  lemma RefusedCommits(cfg: Config, w: World, step: Step, s: bytes)
    requires Inv(w) && Answered(w, step) && step.verdict == (_ => Refused) && step.answers.loads && step.answers.commits
    requires s !in w.durable && exists x :: x in step.answers.events.value && x.stream == s && x.at.Some?
    ensures var w', furthest := Next(cfg, w, step), Furthest(step.answers.events.value);
            && s in furthest && s in w'.durable && w'.durable != w.durable && w'.durable[s].position == furthest[s].at
            && w'.acked == w.acked && w'.refused == w.refused + EventsOf(w, step) && w.read <= w'.read
  {
    var a := step.answers;
    LoadedPositions(w, true);
    FurthestIsMaximum(a.events.value, s);
    hide Window, Furthest, Remember;
    var st := Loaded(w.durable, w.state, true).value;
    var st1 := st.(delivered := Remember(st.delivered, Window(cfg, st.positions, a.now).0));
    NothingToSend(a.events.value, st1.delivered);
    assert step.verdict == _ => Refused;
    assert s in Pending(w.durable, Furthest(a.events.value), a.now);
    hide ToSend;
    assert Poll(cfg, w.durable, w.state, step.verdict, a) == Deliver(w.durable, st1, step.verdict, a);
  }

  /** What no window reaches and no first commit regains, an honest answer to the next poll can lose for good. */
  lemma UnsparedCanBeLost(cfg: Config, w: World, identity: Event -> bytes, e: Event, now: int)
    requires ValidConfig(cfg) && Inv(w) && Outstanding(w, identity, e)
    requires WindowOf(cfg, w, now).0 < WindowOf(cfg, w, now).1
    requires e.at.value < WindowOf(cfg, w, now).0 && !Regained(cfg, w, now, e)
    ensures var step := LosingStep(cfg, w, e, now);
            Polls(cfg, w, identity, step, now) && Loses(cfg, w, identity, step, e) &&
            Next(cfg, w, step).durable != map[]
  {
    var step := LosingStep(cfg, w, e, now);
    LosingIsHonest(cfg, w, identity, e, now);
    LosingCommits(cfg, w, e, now);
    DurableNeverDecreases(cfg, w, step);
    NewStart(cfg, w, Next(cfg, w, step).durable, FreeStream(w.durable, e), now);
    hide LosingStep, Next, Window, FreeStream, Regained;
    assert e !in EventsOf(w, step);
    LostIsBehind(cfg, Next(cfg, w, step), identity, e, now);
  }

  /**
   * After a commit at the end of a window, the next one starts where nothing before the old start is read or regained.
   */
  lemma NewStart(cfg: Config, w: World, p: Positions, s: bytes, now: int)
    requires ValidConfig(cfg) && NotBehind(w.durable, p) && s in p && WindowOf(cfg, w, now).1 - 1 <= p[s].position
    ensures w.durable != map[] ==> WindowOf(cfg, w, now).0 <= Window(cfg, p, now).0
    ensures Bounded(cfg, WindowOf(cfg, w, now).1 - 1 - cfg.lookback, now).0 <= Window(cfg, p, now).0
  {
    if w.durable != map[] { WindowMovesForward(cfg, w.durable, p, now, now); }
    assert p[s].position <= Latest(p);
  }

  /**
   * Whether some honest answer could make a poll commit and lose an event for good is decided, for late arrivals and
   * all others alike, by where its window lies.
   */
  lemma WindowGuardIsExact(cfg: Config, w: World, identity: Event -> bytes, now: int)
    requires ValidConfig(cfg) && Inv(w)
    ensures SafeAt(cfg, w, identity, now) <==>
              Spares(cfg, w, identity, now) || WindowOf(cfg, w, now).0 >= WindowOf(cfg, w, now).1
  {
    hide Next, WindowOf, Inv, Loses, Outstanding, Regained, ValidConfig;
    if Spares(cfg, w, identity, now) || WindowOf(cfg, w, now).0 >= WindowOf(cfg, w, now).1 {
      forall step: Step, e: Event | Polls(cfg, w, identity, step, now) ensures !Loses(cfg, w, identity, step, e) {
        if Spares(cfg, w, identity, now) {
          SparedIsKept(cfg, w, identity, step, e);
        } else {
          EmptyWindowMovesNothing(cfg, w, step);
          StillLosesNothing(cfg, w, identity, step, e);
        }
      }
    } else {
      NotSpared(cfg, w, identity, now);
      var e :| Outstanding(w, identity, e) && e.at.Some? && !(WindowOf(cfg, w, now).0 <= e.at.value) && !Regained(cfg, w, now, e);
      UnsparedCanBeLost(cfg, w, identity, e, now);
      assert Loses(cfg, w, identity, LosingStep(cfg, w, e, now), e);
    }
  }

  lemma StillLosesNothing(cfg: Config, w: World, identity: Event -> bytes, step: Step, e: Event)
    requires step.PollStep? && Next(cfg, w, step).durable == w.durable
    ensures !Loses(cfg, w, identity, step, e)
  {
  }

  lemma NotSpared(cfg: Config, w: World, identity: Event -> bytes, now: int)
    requires !Spares(cfg, w, identity, now)
    ensures exists e :: Outstanding(w, identity, e) && e.at.Some? && !(WindowOf(cfg, w, now).0 <= e.at.value) && !Regained(cfg, w, now, e)
  {
  }

  // ---------------------------------------------------------------- over runs the clock alone decides

  /** By the clock, the next window reaches every event read and not yet taken. */
  ghost predicate Timely(cfg: Config, w: World, identity: Event -> bytes, now: int) {
    forall e :: Outstanding(w, identity, e) ==> now - Reach(cfg, w.durable) <= e.at.value
  }

  /** No checkpoint is more than the overlap ahead of an event nobody took. */
  ghost predicate Overlaps(cfg: Config, w: World, identity: Event -> bytes) {
    w.durable != map[] ==> forall e :: Outstanding(w, identity, e) ==> Latest(w.durable) - cfg.lookback <= e.at.value
  }

  lemma TimelyIsReaches(cfg: Config, w: World, identity: Event -> bytes, now: int)
    requires ValidConfig(cfg) && Overlaps(cfg, w, identity)
    ensures Timely(cfg, w, identity, now) <==> Reaches(cfg, w, identity, now)
  {
    hide Outstanding;
  }

  lemma OverlapsStep(cfg: Config, w: World, identity: Event -> bytes, step: Step)
    requires ValidConfig(cfg) && Inv(w) && Consistent(identity, step) && Honest(cfg, w, step)
    requires Overlaps(cfg, w, identity) && (step.PollStep? ==> Timely(cfg, w, identity, step.answers.now))
    ensures Overlaps(cfg, Next(cfg, w, step), identity)
  {
    var w' := Next(cfg, w, step);
    if w'.durable != map[] {
      forall e | Outstanding(w', identity, e) ensures Latest(w'.durable) - cfg.lookback <= e.at.value {
        OverlapsOne(cfg, w, identity, step, e);
      }
    }
  }

  lemma OverlapsOne(cfg: Config, w: World, identity: Event -> bytes, step: Step, e: Event)
    requires ValidConfig(cfg) && Inv(w) && Consistent(identity, step) && Honest(cfg, w, step)
    requires Overlaps(cfg, w, identity) && (step.PollStep? ==> Timely(cfg, w, identity, step.answers.now))
    requires Outstanding(Next(cfg, w, step), identity, e) && Next(cfg, w, step).durable != map[]
    ensures Latest(Next(cfg, w, step).durable) - cfg.lookback <= e.at.value
  {
    if Next(cfg, w, step).durable == w.durable {
      StaysOutstanding(cfg, w, identity, step, e);
      if !Outstanding(w, identity, e) { ReadIsRecent(cfg, w, step, e); }
      hide Next, Settled;
    } else {
      LeftBeyond(cfg, w, identity, step, e);
      TimelyIsReaches(cfg, w, identity, step.answers.now);
      LatestAfterPoll(cfg, w, step);
      hide Next, WindowOf, Honest, Settled;
    }
  }

  /** What a poll reads lies no further behind the last checkpoint than the overlap. */
  lemma ReadIsRecent(cfg: Config, w: World, step: Step, e: Event)
    requires Honest(cfg, w, step) && e in EventsOf(w, step) && e.at.Some? && w.durable != map[]
    ensures Latest(w.durable) - cfg.lookback <= e.at.value
  {
    assert Within(e, WindowOf(cfg, w, step.answers.now));
  }

  /** A run against an honest source that begins with nothing outstanding and polls in time. */
  ghost predicate TimelyRun(cfg: Config, identity: Event -> bytes, worlds: seq<World>, steps: seq<Step>) {
    && IsRun(cfg, identity, worlds, steps) && (forall e :: !Outstanding(worlds[0], identity, e))
    && forall i :: 0 <= i < |steps| ==>
         Honest(cfg, worlds[i], steps[i]) && (steps[i].PollStep? ==>
                                                Timely(cfg, worlds[i], identity, steps[i].answers.now))
  }

  lemma {:induction false} RunOverlaps(cfg: Config, identity: Event -> bytes, worlds: seq<World>, steps: seq<Step>,
                                       n: nat)
    requires ValidConfig(cfg) && TimelyRun(cfg, identity, worlds, steps) && n <= |steps|
    ensures Inv(worlds[n]) && Overlaps(cfg, worlds[n], identity)
  {
    hide Next, Inv, Honest, Timely, Outstanding;
    InvHolds(cfg, identity, worlds, steps, n);
    if n > 0 {
      RunOverlaps(cfg, identity, worlds, steps, n - 1);
      OverlapsStep(cfg, worlds[n - 1], identity, steps[n - 1]);
    }
  }

  /**
   * After a run that polls in time, nothing is lost at an instant exactly when the clock says the next poll is in time
   * too.
   */
  lemma ClockGuardIsExact(cfg: Config, identity: Event -> bytes, worlds: seq<World>, steps: seq<Step>, now: int)
    requires ValidConfig(cfg) && TimelyRun(cfg, identity, worlds, steps)
    ensures Timely(cfg, worlds[|steps|], identity, now) <==> Reaches(cfg, worlds[|steps|], identity, now)
    ensures Timely(cfg, worlds[|steps|], identity, now) <==> forall e :: !Lost(cfg, worlds[|steps|], identity, e, now)
  {
    hide Next, Inv, Honest, Overlaps, Timely, Outstanding, WindowOf, Reaches, Lost;
    RunOverlaps(cfg, identity, worlds, steps, |steps|);
    TimelyIsReaches(cfg, worlds[|steps|], identity, now);
    ReachesIsNothingLost(cfg, worlds[|steps|], identity, now);
  }

  /** The answer holds every event nobody took, as far as its window reaches forward. */
  ghost predicate RereadsAll(cfg: Config, w: World, identity: Event -> bytes, step: Step) {
    Answered(w, step) ==>
      forall e :: Outstanding(w, identity, e) && e.at.value < WindowOf(cfg, w, step.answers.now).1 ==>
        e in EventsOf(w, step)
  }

  /**
   * In a run that polls in time every poll reads again whatever was read and not taken, late arrivals included, and
   * loses nothing; no checkpoint ever moves past such an event.
   */
  lemma NoEventIsLost(cfg: Config, identity: Event -> bytes, worlds: seq<World>, steps: seq<Step>, n: nat, e: Event)
    requires ValidConfig(cfg) && TimelyRun(cfg, identity, worlds, steps) && n < |steps|
    ensures RereadsAll(cfg, worlds[n], identity, steps[n])
    ensures !Loses(cfg, worlds[n], identity, steps[n], e) && !Skips(cfg, worlds[n], identity, steps[n], e)
  {
    hide Next, Inv, Honest, Covers, Skips, Overlaps, Timely, Outstanding, Lost, Loses;
    var w, step := worlds[n], steps[n];
    RunOverlaps(cfg, identity, worlds, steps, n);
    if step.PollStep? {
      TimelyIsReaches(cfg, w, identity, step.answers.now);
      ReachedIsReread(cfg, w, identity, step);
      ReachesCovers(cfg, w, identity, step.answers.now);
      SparedIsKept(cfg, w, identity, step, e);
    } else {
      RestartKeeps(cfg, w, identity, step, e);
    }
    NothingCoveredIsSkipped(cfg, w, identity, step, e);
  }

  lemma ReachesCovers(cfg: Config, w: World, identity: Event -> bytes, now: int)
    requires Reaches(cfg, w, identity, now)
    ensures Covers(cfg, w, identity, now) && Spares(cfg, w, identity, now)
  {
    hide Outstanding, WindowOf, Passed, Regained;
  }

  lemma RestartKeeps(cfg: Config, w: World, identity: Event -> bytes, step: Step, e: Event)
    requires step.Restart?
    ensures RereadsAll(cfg, w, identity, step) && !Loses(cfg, w, identity, step, e)
  {
  }

  lemma ReachedIsReread(cfg: Config, w: World, identity: Event -> bytes, step: Step)
    requires Honest(cfg, w, step) && step.PollStep? && Reaches(cfg, w, identity, step.answers.now)
    ensures RereadsAll(cfg, w, identity, step)
  {
    hide WindowOf, Settled;
    if Answered(w, step) {
      forall e | Outstanding(w, identity, e) && e.at.value < WindowOf(cfg, w, step.answers.now).1
        ensures e in EventsOf(w, step)
      {
        assert Within(e, WindowOf(cfg, w, step.answers.now));
      }
    }
  }

  /** A poll that comes too late for an event can continue the run honestly and lose it for good. */
  lemma LatePollCanLose(cfg: Config, identity: Event -> bytes, worlds: seq<World>, steps: seq<Step>, now: int, e: Event)
    requires ValidConfig(cfg) && TimelyRun(cfg, identity, worlds, steps)
    requires var w := worlds[|steps|];
             && Outstanding(w, identity, e) && e.at.value < now - Reach(cfg, w.durable) && !Regained(cfg, w, now, e)
             && WindowOf(cfg, w, now).0 < WindowOf(cfg, w, now).1
    ensures var w, step := worlds[|steps|], LosingStep(cfg, worlds[|steps|], e, now);
            && IsRun(cfg, identity, worlds + [Next(cfg, w, step)], steps + [step]) && Honest(cfg, w, step)
            && Loses(cfg, w, identity, step, e) && Next(cfg, w, step).durable != map[]
  {
    hide Next, Inv, Overlaps, Timely, Settled, Loses, LosingStep, Honest, WindowOf, Regained, ValidConfig, Polls,
         Consistent;
    var w := worlds[|steps|];
    RunOverlaps(cfg, identity, worlds, steps, |steps|);
    LateIsBehind(cfg, w, now, e.at.value);
    LosingIsHonest(cfg, w, identity, e, now);
    LosingIsStep(cfg, w, identity, e, now);
    UnsparedCanBeLost(cfg, w, identity, e, now);
  }

  lemma LosingIsStep(cfg: Config, w: World, identity: Event -> bytes, e: Event, now: int)
    requires Polls(cfg, w, identity, LosingStep(cfg, w, e, now), now)
    ensures var step := LosingStep(cfg, w, e, now); Consistent(identity, step) && Honest(cfg, w, step)
  {
  }

  lemma LateIsBehind(cfg: Config, w: World, now: int, at: int)
    requires ValidConfig(cfg) && at < now - Reach(cfg, w.durable)
    ensures at < WindowOf(cfg, w, now).0
  {
  }

  // ---------------------------------------------------------------- two runs that lose an event

  const MINUTE := 60_000_000_000
  const SECOND := 1_000_000_000
  const DEFAULTS := Config(5 * MINUTE, 60 * MINUTE, 15 * MINUTE, 15 * MINUTE)

  lemma TwoSteps(cfg: Config, identity: Event -> bytes, w: World, first: Step, second: Step)
    requires Inv(w) && Consistent(identity, first) && Consistent(identity, second)
    ensures IsRun(cfg, identity, [w, Next(cfg, w, first), Next(cfg, Next(cfg, w, first), second)], [first, second])
  {
    hide Next, Inv, Consistent;
  }

  /** One event read whose delivery is not acknowledged. */
  function RefusedRead(e: Event, now: int): Step {
    PollStep((x: Event) => Accepted(x.id, 0), Answers(now, true, Some([e]), false, true))
  }

  function ById(e: Event): bytes {
    e.id
  }

  lemma RefusedIsOutstanding(w: World, e: Event, now: int)
    requires Inv(w) && w.state.delivered == map[] && w.acked == {} && w.refused == {} && e.at.Some?
    ensures var w' := Next(DEFAULTS, w, RefusedRead(e, now));
            && Outstanding(w', ById, e) && w'.durable == w.durable && w'.acked == {} && w'.refused == {} && w'.read == w.read + {e}
            && w'.state.loaded && w'.state.delivered == map[] && Consistent(ById, RefusedRead(e, now)) && Inv(w')
  {
    var step := RefusedRead(e, now);
    LoadedPositions(w, true);
    assert [e][..0] == [] && e in [e];
    assert ToSend([e], step.verdict, map[]) == [] + [(e.id, 0)];
    assert !CrossesBoundary([e], step.verdict);
    hide Window;
    assert Remember(map[], Window(DEFAULTS, w.durable, now).0) == map[];
    assert EventsOf(w, step) == {e};
    InvStep(DEFAULTS, w, step);
  }

  const FRESH := World(map[], NEW_PROCESS, {}, {}, {})
  const FIRST := Event([115], Some(0), [101])

  /**
   * Before any checkpoint exists: with the defaults, a first read whose delivery is refused and a poll just past the
   * initial lookback lose an event for good, and move its stream's checkpoint past it.
   */
  lemma AFailedFirstReadIsLost()
    ensures var first, now := RefusedRead(FIRST, 15 * MINUTE), 15 * MINUTE + 1;
            var w := Next(DEFAULTS, FRESH, first);
            var second := LosingStep(DEFAULTS, w, FIRST, now);
            && IsRun(DEFAULTS, ById, [FRESH, w, Next(DEFAULTS, w, second)], [first, second])
            && Honest(DEFAULTS, FRESH, first) && Honest(DEFAULTS, w, second)
            && Loses(DEFAULTS, w, ById, second, FIRST) && Skips(DEFAULTS, w, ById, second, FIRST)
  {
    var first, now := RefusedRead(FIRST, 15 * MINUTE), 15 * MINUTE + 1;
    var w := Next(DEFAULTS, FRESH, first);
    RefusedIsOutstanding(FRESH, FIRST, 15 * MINUTE);
    SecondWindow(w);
    hide Next, LosingStep, Outstanding, WindowOf, DEFAULTS, MINUTE, Inv, Loses, Lost, Regained, ValidConfig;
    UnsparedCanBeLost(DEFAULTS, w, ById, FIRST, now);
    LosingCommits(DEFAULTS, w, FIRST, now);
    TwoSteps(DEFAULTS, ById, FRESH, first, LosingStep(DEFAULTS, w, FIRST, now));
    LostIsOutstanding(DEFAULTS, w, LosingStep(DEFAULTS, w, FIRST, now), FIRST);
  }

  lemma LostIsOutstanding(cfg: Config, w: World, step: Step, e: Event)
    requires Loses(cfg, w, ById, step, e)
    ensures Outstanding(Next(cfg, w, step), ById, e)
  {
  }

  lemma SecondWindow(w: World)
    requires w.durable == map[]
    ensures ValidConfig(DEFAULTS) && Honest(DEFAULTS, FRESH, RefusedRead(FIRST, 15 * MINUTE))
    ensures WindowOf(DEFAULTS, w, 15 * MINUTE + 1) == (1, 15 * MINUTE + 1)
    ensures !Regained(DEFAULTS, w, 15 * MINUTE + 1, FIRST)
  {
  }

  /** A process that runs, with one stream at its checkpoint and nothing outstanding. */
  const STANDING := map[[115] := Checkpoint(0, [], 0)]
  const RUNNING := World(STANDING, State(map[], STANDING, true), {}, {}, {})
  const LATE := Event([115], Some(-30 * SECOND), [101])

  lemma StandingIsLatest()
    ensures STANDING != map[] && Latest(STANDING) == 0
  {
    assert [115] in STANDING && STANDING[[115]].position == 0;
  }

  /**
   * With a checkpoint: with the defaults, an event that arrives half a minute behind its stream's checkpoint, refused
   * once and polled for two minutes later, is lost for good, though no checkpoint ever moved past it.
   */
  lemma ALateArrivalIsLost()
    ensures var first, now := RefusedRead(LATE, 59 * MINUTE), 61 * MINUTE;
            var w := Next(DEFAULTS, RUNNING, first);
            var second := LosingStep(DEFAULTS, w, LATE, now);
            && IsRun(DEFAULTS, ById, [RUNNING, w, Next(DEFAULTS, w, second)], [first, second])
            && Honest(DEFAULTS, RUNNING, first) && Honest(DEFAULTS, w, second)
            && (forall e :: !Outstanding(RUNNING, ById, e)) && Loses(DEFAULTS, w, ById, second, LATE)
            && !Skips(DEFAULTS, RUNNING, ById, first, LATE) && !Skips(DEFAULTS, w, ById, second, LATE)
  {
    var first, now := RefusedRead(LATE, 59 * MINUTE), 61 * MINUTE;
    var w := Next(DEFAULTS, RUNNING, first);
    RefusedIsOutstanding(RUNNING, LATE, 59 * MINUTE);
    LateWindows(w);
    hide Next, LosingStep, Outstanding, WindowOf, DEFAULTS, MINUTE, Inv, Loses, Lost, Regained, ValidConfig, Honest;
    UnsparedCanBeLost(DEFAULTS, w, ById, LATE, now);
    TwoSteps(DEFAULTS, ById, RUNNING, first, LosingStep(DEFAULTS, w, LATE, now));
  }

  lemma LateWindows(w: World)
    requires w.durable == STANDING
    ensures ValidConfig(DEFAULTS) && Inv(RUNNING) && Honest(DEFAULTS, RUNNING, RefusedRead(LATE, 59 * MINUTE))
    ensures WindowOf(DEFAULTS, w, 61 * MINUTE) == (MINUTE, 16 * MINUTE) && !Regained(DEFAULTS, w, 61 * MINUTE, LATE)
    ensures Passed(STANDING, LATE) && forall e :: !Outstanding(RUNNING, ById, e)
  {
    StandingIsLatest();
    assert [115] in STANDING;
  }
}
