/** Runs with compaction: what is released was already frozen, and cannot come back as a contribution. */
module IncidentRelease {
  import opened Basics
  import opened IncidentModel
  import opened IncidentFold
  import opened IncidentRuns
  import opened IncidentTheorems

  /** The frontier covers the watermark, and no held record is newer than the newest event. */
  ghost predicate Bounded(f: Family) {
    && f.maxEvent.Some? && f.watermark == Some(f.maxEvent.value - LATENESS)
    && f.finalized.Some? && f.finalized.value >= f.watermark.value
    && (forall r :: r in f.ordered ==> r.eventTime <= f.maxEvent.value)
    && (forall id :: id in f.evidence ==> f.evidence[id].record.eventTime <= f.maxEvent.value)
  }

  ghost predicate BoundedEngine(e: Engine) {
    forall id :: id in e.families ==> Bounded(e.families[id])
  }

  lemma InsertedMembers(o: seq<Record>, x: Record)
    ensures forall r :: r in Inserted(o, x) ==> r in o || r == x
  {
  }

  lemma ObserveFamilyBounded(f: Family, r: Record)
    requires Bounded(f) || (f.ordered == [] && f.evidence == map[] && f.maxEvent.None? && f.finalized.None?)
    ensures Bounded(ObserveFamily(f, r))
  {
    hide ObserveFamily, Inserted;
    ObserveFamilyFields(f, r);
    InsertedMembers(f.ordered, r);
  }

  lemma AdvanceFamilyBounded(f: Family, now: int)
    requires Bounded(f)
    ensures Bounded(AdvanceFamily(f, now))
    ensures AdvanceFamily(f, now).finalized.value >= f.finalized.value
  {
    hide Satisfied, Refresh;
  }

  lemma {:induction false} KeptMembers(s: seq<Record>, horizon: int, pinned: set<bytes>)
    ensures forall r :: r in Keep(s, horizon, pinned) <==> r in s && !Releasable(r, horizon, pinned)
  {
    if s != [] { KeptMembers(s[..|s| - 1], horizon, pinned); assert s == s[..|s| - 1] + [s[|s| - 1]]; }
  }

  lemma CompactFamilyFields(f: Family, now: int, pinned: set<bytes>)
    ensures var g := CompactFamily(f, now, pinned);
            g.finalized == f.finalized && g.maxEvent == f.maxEvent && g.watermark == f.watermark &&
            g.ordered == Prune(f, now, pinned).ordered && g.evidence == Prune(f, now, pinned).evidence
  {
    hide Keep, KeepEvidence, Arrange, Reconstruct, LeadingEmpty;
  }

  lemma CompactFamilyBounded(f: Family, now: int, pinned: set<bytes>)
    requires Bounded(f)
    ensures Bounded(CompactFamily(f, now, pinned))
  {
    hide CompactFamily, Keep;
    CompactFamilyFields(f, now, pinned);
    KeptMembers(f.ordered, Horizon(f, now), pinned);
  }

  lemma StepKeepsBounded(e: Engine, input: Input)
    requires BoundedEngine(e)
    ensures BoundedEngine(Step(e, input))
  {
    hide Bounded, ObserveFamily, AdvanceFamily, CompactFamily, LocationOf, Released, Survives;
    match input
    case PinInput(ids) =>
    case ObserveInput(r) =>
      if r.incident.Some? && r.id !in e.seen { ObserveFamilyBounded(FamilyOf(e, r.incident.value), r); }
    case AdvanceInput(now) =>
      forall id | id in e.families ensures Bounded(CompactFamily(AdvanceFamily(e.families[id], now), now, e.pinned)) {
        AdvanceFamilyBounded(e.families[id], now);
        CompactFamilyBounded(AdvanceFamily(e.families[id], now), now, e.pinned);
      }
  }

  lemma {:induction false} RunIsBounded(inputs: seq<Input>)
    ensures BoundedEngine(Run(EMPTY, inputs))
  {
    hide BoundedEngine, Step;
    if inputs == [] { EmptyBounded(); } else {
      RunIsBounded(inputs[..|inputs| - 1]);
      StepKeepsBounded(Run(EMPTY, inputs[..|inputs| - 1]), inputs[|inputs| - 1]);
    }
  }

  lemma EmptyBounded()
    ensures BoundedEngine(EMPTY)
  {
  }

  ghost predicate Holds(f: Family, r: Record) {
    r in f.ordered || exists id :: id in f.evidence && f.evidence[id].record == r
  }

  /** A family no longer holds `r` as a contribution and its frontier has passed it. */
  ghost predicate Gone(f: Family, r: Record) {
    r !in f.ordered && Before(r.eventTime, f.finalized)
  }

  /** Every record a compaction releases was already strictly behind the finalization frontier. */
  lemma ReleasedWasFrozen(f: Family, now: int, pinned: set<bytes>, r: Record)
    requires Bounded(f)
    requires var g := AdvanceFamily(f, now);
             (r in g.ordered && r !in Prune(g, now, pinned).ordered) ||
             exists id :: id in g.evidence && id !in Prune(g, now, pinned).evidence && g.evidence[id].record == r
    ensures Before(r.eventTime, AdvanceFamily(f, now).finalized)
  {
    AdvanceFamilyBounded(f, now);
    var g := AdvanceFamily(f, now);
    KeptMembers(g.ordered, Horizon(g, now), pinned);
    hide Refresh, Satisfied, Keep;
    assert g.ordered == f.ordered && g.evidence == f.evidence;
  }

  lemma GoneStaysGone(e: Engine, input: Input, id: bytes, r: Record)
    requires BoundedEngine(e) && id in e.families && id in Step(e, input).families && Gone(e.families[id], r)
    ensures Gone(Step(e, input).families[id], r)
  {
    hide ObserveFamily, AdvanceFamily, CompactFamily, LocationOf, Released, Survives, EvidenceOf;
    var f := e.families[id];
    match input
    case PinInput(ids) =>
    case ObserveInput(x) =>
      if x.incident == Some(id) && x.id !in e.seen {
        ObserveFamilyFields(f, x);
        InsertedMembers(f.ordered, x);
      }
    case AdvanceInput(now) =>
      AdvanceFamilyBounded(f, now);
      AdvanceKeepsRecords(f, now);
      CompactFamilyFields(AdvanceFamily(f, now), now, e.pinned);
      KeptMembers(f.ordered, Horizon(AdvanceFamily(f, now), now), e.pinned);
  }

  lemma AdvanceKeepsRecords(f: Family, now: int)
    ensures AdvanceFamily(f, now).ordered == f.ordered && AdvanceFamily(f, now).evidence == f.evidence
  {
    hide Refresh, Satisfied;
  }

  /** An identity the engine forgot, arriving again at a family that passed it, becomes evidence only. */
  lemma ReturnsAsEvidence(e: Engine, id: bytes, r: Record)
    requires id in e.families && Gone(e.families[id], r) && r.incident == Some(id) && r.id !in e.seen
    ensures var f, g := e.families[id], Observe(e, r).families[id];
            g.ordered == f.ordered && r.id in g.evidence && g.evidence[r.id].record == r &&
            Observe(e, r).seen[r.id].evidence
  {
    ObserveFamilyFields(e.families[id], r);
    hide ObserveFamily, EvidenceTarget;
    assert IsEvidence(Note(e.families[id], r), r);
  }

  /**
   * Over any run: a record held by a family and released at step n is, for as long as the family is held,
   * behind the frontier and never a contribution again; if it arrives again it can only be taken as evidence.
   */
  lemma {:induction false} ReleasedNeverContributesAgain(inputs: seq<Input>, n: nat, id: bytes, r: Record)
    requires n < |inputs| && inputs[n].AdvanceInput? && r.incident == Some(id)
    requires id in Run(EMPTY, inputs[..n]).families && Holds(Run(EMPTY, inputs[..n]).families[id], r)
    requires forall k :: n < k <= |inputs| ==> id in Run(EMPTY, inputs[..k]).families
    requires !Holds(Run(EMPTY, inputs[..n + 1]).families[id], r)
    ensures var e := Run(EMPTY, inputs);
            && id in e.families && Gone(e.families[id], r)
            && (r.id !in e.seen ==>
                 var f, g := e.families[id], Observe(e, r).families[id];
                 g.ordered == f.ordered && r.id in g.evidence && g.evidence[r.id].record == r)
    decreases |inputs|
  {
    hide Observe, Advance, BoundedEngine, Holds, Gone;
    var m := |inputs| - 1;
    assert inputs[..m + 1] == inputs;
    var before := Run(EMPTY, inputs[..m]);
    RunIsBounded(inputs[..m]);
    if n == m {
      ReleaseStep(before, inputs[n].now, id, r);
    } else {
      forall k | n < k <= m
        ensures id in Run(EMPTY, inputs[..m][..k]).families
      {
        assert inputs[..m][..k] == inputs[..k];
      }
      assert inputs[..m][..n] == inputs[..n] && inputs[..m][..n + 1] == inputs[..n + 1];
      ReleasedNeverContributesAgain(inputs[..m], n, id, r);
      GoneStaysGone(before, inputs[m], id, r);
    }
    var e := Run(EMPTY, inputs);
    if r.id !in e.seen { ReturnsAsEvidence(e, id, r); }
  }

  lemma ReleaseStep(e: Engine, now: int, id: bytes, r: Record)
    requires BoundedEngine(e) && id in e.families && id in Advance(e, now).families
    requires Holds(e.families[id], r) && !Holds(Advance(e, now).families[id], r)
    ensures Gone(Advance(e, now).families[id], r)
  {
    hide AdvanceFamily, CompactFamily, Released, Survives, Bounded, Keep, KeepEvidence;
    var f := e.families[id];
    var g := AdvanceFamily(f, now);
    AdvanceKeepsRecords(f, now);
    CompactFamilyFields(g, now, e.pinned);
    ReleasedWasFrozen(f, now, e.pinned, r) by {
      if r !in f.ordered {
        var i :| i in f.evidence && f.evidence[i].record == r;
        KeptEvidence(g, now, e.pinned, i);
      }
    }
  }

  lemma KeptEvidence(g: Family, now: int, pinned: set<bytes>, i: bytes)
    requires i in g.evidence
    ensures i in Prune(g, now, pinned).evidence ==> Prune(g, now, pinned).evidence[i] == g.evidence[i]
  {
    hide Keep;
  }
}
