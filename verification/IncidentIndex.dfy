/** The identity index: what it knows is held, and what is held it knows, over every run. */
module IncidentIndex {
  import opened Basics
  import opened IncidentModel
  import opened IncidentFold
  import opened IncidentRuns
  import opened IncidentTheorems

  /** The identity index places in a family exactly the records the family holds. */
  ghost predicate Known(seen: map<bytes, Location>, id: bytes, f: Family) {
    forall r :: (r in seen && seen[r].incident == id) <==> r in Ids(f.ordered) || r in f.evidence
  }

  lemma KnownAfterObserve(seen: map<bytes, Location>, id: bytes, f: Family, r: Record, at: Location)
    requires Known(seen, id, f) && at.incident == id
    ensures Known(seen[r.id := at], id, ObserveFamily(f, r))
  {
    hide ObserveFamily, Ids, Inserted;
    ObserveFamilyFields(f, r);
    IdsOfInserted(f.ordered, r);
  }

  lemma AdvanceKeepsRecords(f: Family, now: int)
    ensures AdvanceFamily(f, now).ordered == f.ordered && AdvanceFamily(f, now).evidence == f.evidence
  {
    hide Refresh, Satisfied;
  }

  lemma CompactKeepsPruned(g: Family, now: int, pinned: set<bytes>)
    ensures CompactFamily(g, now, pinned).ordered == Prune(g, now, pinned).ordered
    ensures CompactFamily(g, now, pinned).evidence == Prune(g, now, pinned).evidence
  {
    hide Keep, KeepEvidence, Arrange, Reconstruct, LeadingEmpty;
  }

  lemma PruneKeepsSome(g: Family, now: int, pinned: set<bytes>)
    ensures Ids(Prune(g, now, pinned).ordered) <= Ids(g.ordered)
    ensures Prune(g, now, pinned).evidence.Keys <= g.evidence.Keys
  {
    hide Keep, Horizon, Ids;
    KeptIds(g.ordered, Horizon(g, now), pinned);
  }

  lemma KnownWithout(seen: map<bytes, Location>, gone: set<bytes>, id: bytes, f: Family, h: Family)
    requires Known(seen, id, f) && Ids(h.ordered) <= Ids(f.ordered) && h.evidence.Keys <= f.evidence.Keys
    requires Ids(f.ordered) + f.evidence.Keys - gone == Ids(h.ordered) + h.evidence.Keys
    ensures Known(seen - gone, id, h)
  {
    hide Ids;
    forall r
      ensures r in Ids(h.ordered) || r in h.evidence <==> (r in Ids(f.ordered) || r in f.evidence) && r !in gone
    {
      assert r in Ids(h.ordered) + h.evidence.Keys <==> r in Ids(f.ordered) + f.evidence.Keys - gone;
    }
  }

  lemma KnownAfterCompact(seen: map<bytes, Location>, id: bytes, f: Family, now: int, pinned: set<bytes>)
    requires Known(seen, id, f)
    ensures Known(seen - Released(AdvanceFamily(f, now), now, pinned), id, CompactFamily(AdvanceFamily(f, now), now, pinned))
  {
    hide AdvanceFamily, CompactFamily, Prune, Ids, Known;
    var g := AdvanceFamily(f, now);
    AdvanceKeepsRecords(f, now);
    CompactKeepsPruned(g, now, pinned);
    PruneKeepsSome(g, now, pinned);
    KnownWithout(seen, Released(g, now, pinned), id, f, CompactFamily(g, now, pinned));
  }

  lemma {:induction false} KeptIds(s: seq<Record>, horizon: int, pinned: set<bytes>)
    ensures Ids(Keep(s, horizon, pinned)) <= Ids(s)
    ensures forall r :: r in Keep(s, horizon, pinned) ==> r in s
  {
    if s != [] { KeptIds(s[..|s| - 1], horizon, pinned); }
  }

  lemma OthersKnown(seen: map<bytes, Location>, id: bytes, f: Family, o: bytes, g: Family, now: int, pinned: set<bytes>)
    requires Known(seen, id, f) && Known(seen, o, g) && id != o
    ensures Known(seen - Released(AdvanceFamily(f, now), now, pinned), o, g)
  {
    hide AdvanceFamily, Prune, Ids;
    AdvanceKeepsRecords(f, now);
  }

  lemma KnownElsewhere(seen: map<bytes, Location>, r: bytes, at: Location, o: bytes, g: Family)
    requires Known(seen, o, g) && r !in seen && at.incident != o
    ensures Known(seen[r := at], o, g)
  {
  }

  lemma NewIsKnown(seen: map<bytes, Location>, id: bytes)
    requires forall r :: r in seen ==> seen[r].incident != id
    ensures Known(seen, id, NewFamily(id))
  {
  }

  lemma EmptyKnowsNone(seen: map<bytes, Location>, id: bytes, f: Family)
    requires Known(seen, id, f) && f.ordered == [] && f.evidence == map[]
    ensures forall r :: r in seen ==> seen[r].incident != id
  {
  }

  // ---------------------------------------------------------------- over runs

  /** Every family is kept under its own name, and the index points to a family for exactly what that family holds. */
  ghost predicate Backed(e: Engine) {
    && (forall id :: id in e.families ==> e.families[id].id == id && Known(e.seen, id, e.families[id]))
    && (forall r :: r in e.seen ==> e.seen[r].incident in e.families)
  }

  lemma ObserveKeepsName(f: Family, r: Record)
    ensures ObserveFamily(f, r).id == f.id
  {
    ObserveFamilyFields(f, r);
  }

  lemma AdvanceKeepsName(f: Family, now: int, pinned: set<bytes>)
    ensures CompactFamily(AdvanceFamily(f, now), now, pinned).id == f.id
  {
    hide Keep, KeepEvidence, Arrange, Reconstruct, LeadingEmpty, PrunesNothing, Horizon, Satisfied, StatusAt;
  }

  lemma ObserveKeepsBacked(e: Engine, r: Record)
    requires Backed(e) && r.incident.Some? && r.id !in e.seen
    ensures Backed(Observe(e, r))
  {
    hide ObserveFamily, Known, LocationOf;
    var id, e' := r.incident.value, Observe(e, r);
    var f := FamilyOf(e, id);
    if id !in e.families { NewIsKnown(e.seen, id); }
    LocationIsHere(f, r);
    KnownAfterObserve(e.seen, id, f, r, LocationOf(f, r));
    ObserveKeepsName(f, r);
    forall o | o in e.families && o != id ensures Known(e'.seen, o, e.families[o]) {
      KnownElsewhere(e.seen, r.id, LocationOf(f, r), o, e.families[o]);
    }
  }

  lemma LocationIsHere(f: Family, r: Record)
    ensures LocationOf(f, r).incident == f.id
  {
  }

  lemma ReleasedIsHeld(f: Family, now: int, pinned: set<bytes>, r: bytes)
    requires r in Released(AdvanceFamily(f, now), now, pinned)
    ensures r in Ids(f.ordered) || r in f.evidence
  {
    AdvanceKeepsRecords(f, now);
    hide AdvanceFamily, Keep, KeepEvidence, Horizon;
  }

  /** One family of an Advance: what the index has left of it is what it still holds. */
  lemma AdvancedIsKnown(e: Engine, now: int, id: bytes)
    requires Backed(e) && id in e.families
    ensures Known(Advance(e, now).seen, id, CompactFamily(AdvanceFamily(e.families[id], now), now, e.pinned))
  {
    hide AdvanceFamily, CompactFamily, Released, Known, Advance;
    var f := e.families[id];
    var left := e.seen - Released(AdvanceFamily(f, now), now, e.pinned);
    KnownAfterCompact(e.seen, id, f, now, e.pinned);
    forall r ensures PointsTo(Advance(e, now).seen, r, id) <==> PointsTo(left, r, id) { LeftOf(e, now, id, r); }
    SameKnown(left, Advance(e, now).seen, id, CompactFamily(AdvanceFamily(f, now), now, e.pinned));
  }

  predicate PointsTo(seen: map<bytes, Location>, r: bytes, id: bytes) {
    r in seen && seen[r].incident == id
  }

  lemma SameKnown(a: map<bytes, Location>, b: map<bytes, Location>, id: bytes, f: Family)
    requires Known(a, id, f) && forall r :: PointsTo(b, r, id) <==> PointsTo(a, r, id)
    ensures Known(b, id, f)
  {
    hide Ids;
    forall r ensures (r in b && b[r].incident == id) <==> r in Ids(f.ordered) || r in f.evidence {
      assert PointsTo(b, r, id) <==> PointsTo(a, r, id);
    }
  }

  lemma LeftOf(e: Engine, now: int, id: bytes, r: bytes)
    requires Backed(e) && id in e.families
    ensures PointsTo(Advance(e, now).seen, r, id) <==>
              PointsTo(e.seen - Released(AdvanceFamily(e.families[id], now), now, e.pinned), r, id)
  {
    hide AdvanceFamily, CompactFamily, Released, Survives, Backed;
    if PointsTo(e.seen - Released(AdvanceFamily(e.families[id], now), now, e.pinned), r, id) { OthersKeep(e, now, id, r); }
  }

  lemma OthersKeep(e: Engine, now: int, id: bytes, r: bytes)
    requires Backed(e) && id in e.families && r in e.seen && e.seen[r].incident == id
    requires r !in Released(AdvanceFamily(e.families[id], now), now, e.pinned)
    ensures forall o :: o in e.families ==> r !in Released(AdvanceFamily(e.families[o], now), now, e.pinned)
  {
    hide AdvanceFamily, Released, Ids;
    forall o | o in e.families ensures r !in Released(AdvanceFamily(e.families[o], now), now, e.pinned) {
      if r in Released(AdvanceFamily(e.families[o], now), now, e.pinned) {
        ReleasedIsHeld(e.families[o], now, e.pinned, r);
      }
    }
  }

  lemma AdvanceKeepsBacked(e: Engine, now: int)
    requires Backed(e)
    ensures Backed(Advance(e, now))
  {
    hide AdvanceFamily, CompactFamily, Released, Known, Survives;
    var e' := Advance(e, now);
    forall id | id in e.families
      ensures CompactFamily(AdvanceFamily(e.families[id], now), now, e.pinned).id == id
      ensures Known(e'.seen, id, CompactFamily(AdvanceFamily(e.families[id], now), now, e.pinned))
    {
      AdvanceKeepsName(e.families[id], now, e.pinned);
      AdvancedIsKnown(e, now, id);
    }
    forall r | r in e'.seen ensures e'.seen[r].incident in e'.families {
      var id := e.seen[r].incident;
      HolderSurvives(e'.seen, id, CompactFamily(AdvanceFamily(e.families[id], now), now, e.pinned), now, r);
    }
  }

  lemma HolderSurvives(seen: map<bytes, Location>, id: bytes, f: Family, now: int, r: bytes)
    requires Known(seen, id, f) && r in seen && seen[r].incident == id
    ensures Survives(f, now)
  {
  }

  lemma StepKeepsBacked(e: Engine, input: Input)
    requires Backed(e)
    ensures Backed(Step(e, input))
  {
    match input
    case PinInput(_) =>
    case ObserveInput(r) => if r.incident.Some? && r.id !in e.seen { ObserveKeepsBacked(e, r); }
    case AdvanceInput(now) => AdvanceKeepsBacked(e, now);
  }

  /** Over every run, compactions included, a remembered identity has its family, and that family holds it. */
  lemma {:induction false} RememberedIsHeld(e: Engine, inputs: seq<Input>)
    requires Backed(e)
    ensures Backed(Run(e, inputs))
  {
    hide Backed, Step;
    if inputs != [] {
      RememberedIsHeld(e, inputs[..|inputs| - 1]);
      StepKeepsBacked(Run(e, inputs[..|inputs| - 1]), inputs[|inputs| - 1]);
    }
  }

  lemma EmptyIsBacked()
    ensures Backed(EMPTY)
  {
  }
}
