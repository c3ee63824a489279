/** The main results about whole runs of the incident engine. */
module IncidentTheorems {
  import opened Basics
  import opened IncidentModel
  import opened IncidentFold
  import opened IncidentRuns

  datatype Input = ObserveInput(record: Record) | AdvanceInput(now: int) | PinInput(ids: set<bytes>)

  ghost function Step(e: Engine, input: Input): Engine {
    match input
    case ObserveInput(r) => Observe(e, r)
    case AdvanceInput(now) => Advance(e, now)
    case PinInput(ids) => e.(pinned := ids)
  }

  ghost function Run(e: Engine, inputs: seq<Input>): Engine {
    if inputs == [] then e else Step(Run(e, inputs[..|inputs| - 1]), inputs[|inputs| - 1])
  }

  const EMPTY := Engine(map[], map[], {})

  ghost predicate ReleasesNothing(e: Engine, input: Input) {
    input.AdvanceInput? ==>
      forall id :: id in e.families ==> PrunesNothing(AdvanceFamily(e.families[id], input.now), input.now, e.pinned)
  }

  /** No Advance of the run finds a record to release. */
  ghost predicate QuietRun(e: Engine, inputs: seq<Input>) {
    forall n :: 0 <= n < |inputs| ==> ReleasesNothing(Run(e, inputs[..n]), inputs[n])
  }

  /** The identity index knows every record a family holds, and how it holds it. */
  ghost predicate Points(seen: map<bytes, Location>, id: bytes, f: Family) {
    && f.id == id
    && (forall r :: r in Ids(f.ordered) ==> r in seen && seen[r] == Location(id, false, false))
    && (forall r :: r in f.evidence ==> r in seen && seen[r] == Location(id, f.evidence[r].late, true))
  }

  ghost predicate Indexed(e: Engine, id: bytes, f: Family) {
    Points(e.seen, id, f) && (f.ordered != [] || f.evidence != map[])
  }

  /** What holds of the engine after every run that releases nothing. */
  ghost predicate IntactEngine(e: Engine) {
    && (forall id :: id in e.families ==> Intact(e.families[id]) && Indexed(e, id, e.families[id]))
    && (forall r :: r in e.seen ==> e.seen[r].incident in e.families)
  }

  lemma NewToFamily(e: Engine, r: Record)
    requires IntactEngine(e) && r.incident.Some? && r.id !in e.seen
    ensures Intact(FamilyOf(e, r.incident.value)) && New(FamilyOf(e, r.incident.value), r)
  {
    hide Intact, Ids;
    var f := FamilyOf(e, r.incident.value);
    if r.incident.value !in e.families { EmptyIntact(r.incident.value); }
  }

  lemma EmptyIntact(id: bytes)
    ensures Intact(NewFamily(id)) && Ids([]) == {}
  {
    assert Ids([]) == {};
    assert Arrange(Fold([]), map[], 0, None) == [];
  }

  lemma PointsAtEvidence(seen: map<bytes, Location>, id: bytes, f: Family, h: Family, r: bytes, e: Evidence)
    requires Points(seen, id, f) && r !in seen
    requires h.id == id && h.ordered == f.ordered && h.evidence == f.evidence[r := e]
    ensures Points(seen[r := Location(id, e.late, true)], id, h) && h.evidence != map[]
  {
    hide Ids;
    assert r in h.evidence;
  }

  lemma PointsAtRecord(seen: map<bytes, Location>, id: bytes, f: Family, h: Family, r: Record)
    requires Points(seen, id, f) && r.id !in seen && Fresh(f.ordered, r)
    requires h.id == id && h.ordered == Inserted(f.ordered, r) && h.evidence == f.evidence
    ensures Points(seen[r.id := Location(id, false, false)], id, h) && h.ordered != []
  {
    IdsOfInserted(f.ordered, r);
    InsertKeepsOrder(f.ordered, r);
    hide Ids, Inserted;
  }

  lemma ObserveFamilyIndexed(e: Engine, id: bytes, f: Family, r: Record, e': Engine)
    requires f == FamilyOf(e, id) && Intact(f) && New(f, r) && f.id == id && r.id !in e.seen
    requires id in e.families ==> Indexed(e, id, f)
    requires e'.seen == e.seen[r.id := LocationOf(f, r)]
    ensures Indexed(e', id, ObserveFamily(f, r))
  {
    assert Points(e.seen, id, f);
    hide Points, Inserted, Ids, Fold, Intact, ObserveFamily, EvidenceTarget, NewFamily, FamilyOf, Rank;
    ObserveIntact(f, r);
    FreshForFamily(f, r);
    var g, h := Note(f, r), ObserveFamily(f, r);
    if IsEvidence(g, r) {
      PointsAtEvidence(e.seen, id, f, h, r.id, EvidenceOf(g, r));
    } else {
      PointsAtRecord(e.seen, id, f, h, r);
    }
  }

  lemma Observed(e: Engine, r: Record)
    requires r.incident.Some? && r.id !in e.seen
    ensures var id, f, e' := r.incident.value, FamilyOf(e, r.incident.value), Observe(e, r);
            && e'.families.Keys == e.families.Keys + {id} && e'.families[id] == ObserveFamily(f, r)
            && (forall o :: o in e.families && o != id ==> e'.families[o] == e.families[o])
            && e'.seen == e.seen[r.id := LocationOf(f, r)] && LocationOf(f, r).incident == f.id
  {
    hide ObserveFamily, FamilyOf;
  }

  lemma ObserveKeepsIntact(e: Engine, r: Record)
    requires IntactEngine(e)
    ensures IntactEngine(Observe(e, r))
  {
    if r.incident.Some? && r.id !in e.seen {
      hide IntactEngine, Intact, ObserveFamily, LocationOf, Ids, New, Indexed, Observe, FamilyOf;
      var id, f, e' := r.incident.value, FamilyOf(e, r.incident.value), Observe(e, r);
      Observed(e, r);
      FamilyWas(e, id);
      NewToFamily(e, r);
      ObserveIntact(f, r);
      ObserveFamilyIndexed(e, id, f, r, e');
      OneFamilyChanged(e, e', id, ObserveFamily(f, r), r.id);
    }
  }

  /** An engine in which one family and one identity are new is intact when that family is. */
  lemma OneFamilyChanged(e: Engine, e': Engine, id: bytes, h: Family, r: bytes)
    requires IntactEngine(e) && r !in e.seen && r in e'.seen && e'.seen[r].incident == id
    requires e'.seen == e.seen[r := e'.seen[r]]
    requires e'.families.Keys == e.families.Keys + {id} && e'.families[id] == h && Intact(h) && Indexed(e', id, h)
    requires forall o :: o in e.families && o != id ==> e'.families[o] == e.families[o]
    ensures IntactEngine(e')
  {
    hide Intact, Indexed;
    forall o | o in e'.families ensures Intact(e'.families[o]) && Indexed(e', o, e'.families[o]) {
      if o != id { OtherFamilyIndexed(e, o, r, e'); }
    }
  }

  lemma FamilyWas(e: Engine, id: bytes)
    requires IntactEngine(e)
    ensures id in e.families ==> FamilyOf(e, id) == e.families[id] && Indexed(e, id, FamilyOf(e, id))
    ensures FamilyOf(e, id).id == id
  {
    hide Intact, Ids;
  }

  lemma OtherFamilyIndexed(e: Engine, o: bytes, id: bytes, e': Engine)
    requires o in e.families && Indexed(e, o, e.families[o]) && id !in e.seen
    requires forall r :: r in e.seen ==> r in e'.seen && e'.seen[r] == e.seen[r]
    ensures Indexed(e', o, e.families[o])
  {
  }

  lemma RefreshArranged(eps: seq<Episode>, evidence: map<bytes, Evidence>, a: Option<int>, b: Option<int>)
    ensures Refresh(Arrange(eps, evidence, 0, a), b) == Arrange(eps, evidence, 0, b)
  {
    EpisodesOfArranged(eps, evidence, 0, a);
  }

  lemma AdvanceFamilyIntact(f: Family, now: int)
    requires Intact(f)
    ensures var g := AdvanceFamily(f, now);
            Intact(g) && g.ordered == f.ordered && g.evidence == f.evidence && g.id == f.id && Grows(f, g)
  {
    RefreshArranged(Fold(f.ordered), f.evidence, f.advancedTo, Later(f.advancedTo, now));
    hide Fold, Arrange, Refresh, Satisfied;
  }

  lemma QuietAdvance(e: Engine, now: int)
    requires IntactEngine(e) && ReleasesNothing(e, AdvanceInput(now))
    ensures Advance(e, now).seen == e.seen && Advance(e, now).pinned == e.pinned
    ensures Advance(e, now).families.Keys == e.families.Keys
    ensures forall id :: id in e.families ==> Advance(e, now).families[id] == AdvanceFamily(e.families[id], now)
  {
    hide Intact, AdvanceFamily, Prune, Ids;
    forall id | id in e.families
      ensures Released(AdvanceFamily(e.families[id], now), now, e.pinned) == {}
      ensures Survives(AdvanceFamily(e.families[id], now), now)
    {
      AdvanceFamilyIntact(e.families[id], now);
    }
  }

  lemma StepKeepsIntact(e: Engine, input: Input)
    requires IntactEngine(e) && ReleasesNothing(e, input)
    ensures IntactEngine(Step(e, input))
  {
    match input
    case ObserveInput(r) => ObserveKeepsIntact(e, r);
    case PinInput(ids) =>
    case AdvanceInput(now) =>
      QuietAdvance(e, now);
      forall id | id in e.families
        ensures Intact(AdvanceFamily(e.families[id], now)) && Indexed(Advance(e, now), id, AdvanceFamily(e.families[id], now))
      {
        AdvanceFamilyIntact(e.families[id], now);
      }
  }

  lemma {:induction false} RunIsIntact(inputs: seq<Input>)
    requires QuietRun(EMPTY, inputs)
    ensures IntactEngine(Run(EMPTY, inputs))
  {
    hide IntactEngine, Step, ReleasesNothing;
    if inputs == [] {
      EmptyEngineIntact();
    } else {
      QuietPrefix(inputs, |inputs| - 1);
      RunIsIntact(inputs[..|inputs| - 1]);
      StepKeepsIntact(Run(EMPTY, inputs[..|inputs| - 1]), inputs[|inputs| - 1]);
    }
  }

  lemma EmptyEngineIntact()
    ensures IntactEngine(EMPTY)
  {
  }

  lemma QuietPrefix(inputs: seq<Input>, n: nat)
    requires QuietRun(EMPTY, inputs) && n <= |inputs|
    ensures QuietRun(EMPTY, inputs[..n])
  {
    hide Run, ReleasesNothing;
    forall m | 0 <= m < n ensures ReleasesNothing(Run(EMPTY, inputs[..n][..m]), inputs[..n][m]) {
      assert inputs[..n][..m] == inputs[..m];
    }
  }

  /**
   * Whatever mix of extend, rebuild and evidence arrivals a run takes, every family's generations are
   * one left fold over its sorted contributing records, numbered from one.
   */
  lemma TopologyIsOneFold(inputs: seq<Input>, id: bytes)
    requires QuietRun(EMPTY, inputs) && id in Run(EMPTY, inputs).families
    ensures var f := Run(EMPTY, inputs).families[id];
            Sorted(f.ordered) && Episodes(f.generations) == Fold(f.ordered) &&
            forall i :: 0 <= i < |f.generations| ==> f.generations[i].number == i + 1
  {
    RunIsIntact(inputs);
    var f := Run(EMPTY, inputs).families[id];
    hide Run, QuietRun, Fold;
    EpisodesOfArranged(Fold(f.ordered), f.evidence, 0, f.advancedTo);
  }

  /** Arrival order is forgotten: the same contributing records always make the same episodes. */
  lemma ArrivalOrderIrrelevant(a: seq<Input>, b: seq<Input>, id: bytes)
    requires QuietRun(EMPTY, a) && QuietRun(EMPTY, b)
    requires id in Run(EMPTY, a).families && id in Run(EMPTY, b).families
    requires forall r :: r in Run(EMPTY, a).families[id].ordered <==> r in Run(EMPTY, b).families[id].ordered
    ensures Episodes(Run(EMPTY, a).families[id].generations) == Episodes(Run(EMPTY, b).families[id].generations)
  {
    hide Run, QuietRun, Fold;
    TopologyIsOneFold(a, id);
    TopologyIsOneFold(b, id);
    SortedUnique(Run(EMPTY, a).families[id].ordered, Run(EMPTY, b).families[id].ordered);
  }

  // ---------------------------------------------------------------- decisions are final

  lemma ObserveGrows(f: Family, r: Record)
    requires Intact(f) && New(f, r)
    ensures Grows(f, ObserveFamily(f, r))
  {
    ObserveIntact(f, r);
    FreshForFamily(f, r);
    var g, h := Note(f, r), ObserveFamily(f, r);
    assert g.finalized.Some? || f.finalized.None?;
    hide Intact, Inserted, ObserveFamily, Fresh;
    if !IsEvidence(g, r) { assert !Before(r.eventTime, f.finalized); }
  }

  lemma StepKeepsDecision(e: Engine, input: Input, id: bytes)
    requires IntactEngine(e) && ReleasesNothing(e, input) && PersistenceDecision(e, id).Some?
    ensures PersistenceDecision(Step(e, input), id) == PersistenceDecision(e, id)
  {
    hide FamilyDecision, Intact, ObserveFamily, AdvanceFamily, Indexed, LocationOf;
    var at := e.seen[id];
    var f := e.families[at.incident];
    match input
    case PinInput(ids) =>
    case AdvanceInput(now) =>
      QuietAdvance(e, now);
      AdvanceFamilyIntact(f, now);
      FamilyDecisionKept(f, AdvanceFamily(f, now), id, at.evidence, at.late);
    case ObserveInput(r) =>
      if r.incident.Some? && r.id !in e.seen {
        NewToFamily(e, r);
        if r.incident.value == at.incident {
          ObserveGrows(f, r);
          FamilyDecisionKept(f, ObserveFamily(f, r), id, at.evidence, at.late);
        }
      }
  }

  /**
   * Once PersistenceDecision answers for a record, every later state of the run gives the same
   * incident, deployment, episode start, lateness and evidence flag, hence the same generation key.
   */
  lemma {:induction false} DecisionIsFinal(inputs: seq<Input>, n: nat, id: bytes)
    requires QuietRun(EMPTY, inputs) && n <= |inputs|
    requires PersistenceDecision(Run(EMPTY, inputs[..n]), id).Some?
    ensures PersistenceDecision(Run(EMPTY, inputs), id) == PersistenceDecision(Run(EMPTY, inputs[..n]), id)
    decreases |inputs|
  {
    hide PersistenceDecision, IntactEngine, Step, ReleasesNothing;
    if n == |inputs| {
      assert inputs[..n] == inputs;
    } else {
      var before := inputs[..|inputs| - 1];
      assert before[..n] == inputs[..n];
      QuietPrefix(inputs, |inputs| - 1);
      DecisionIsFinal(before, n, id);
      RunIsIntact(before);
      StepKeepsDecision(Run(EMPTY, before), inputs[|inputs| - 1], id);
    }
  }
}
