/** The decisions the engine hands out pass the check the storage layer makes of them. */
module IncidentValidation {
  import opened Basics
  import opened IncidentModel
  import opened IncidentFold
  import opened IncidentRuns
  import opened IncidentTheorems
  import opened IncidentCompaction
  import opened IncidentDecisions
  import opened IncidentTiers
  import opened IncidentFinality

  /** A whole decision: its identity half, and what it says of the frontier and the lifecycle. */
  datatype Issued = Issued(decision: Decision, record: bytes, finalized: int, status: Status, quietAt: int,
                           reopenUntil: int)

  function FamilyIssues(f: Family, id: bytes, evidence: bool, late: bool): Option<Issued> {
    var d := FamilyDecision(f, id, evidence, late);
    if d.None? then None
    else
      var g := f.generations[Containing(f.generations, id).value];
      var quietAt := g.episode.lastActivity + QUIET;
      Some(Issued(d.value, id, f.finalized.value, g.status, quietAt, quietAt + REOPEN))
  }

  function Issues(e: Engine, id: bytes): Option<Issued> {
    if id !in e.seen || e.seen[id].incident !in e.families then None
    else FamilyIssues(e.families[e.seen[id].incident], id, e.seen[id].evidence, e.seen[id].late)
  }

  /** ValidatePersistenceDecision, without the version, the time zones and the hash of the generation key. */
  predicate Validates(r: Record, d: Issued) {
    && d.record == r.id && r.eventTime < d.finalized && d.decision.deployment == r.deployment
    && r.incident == Some(d.decision.incident) && d.reopenUntil == d.quietAt + REOPEN
    && (d.decision.late ==> d.decision.evidenceOnly)
    && (!d.decision.evidenceOnly ==> d.decision.episodeStart <= r.eventTime && Activity(r) + QUIET <= d.quietAt)
  }

  // ---------------------------------------------------------------- an episode covers its records

  ghost predicate Covers(g: Episode) {
    forall id :: id in g.records ==>
      var r := g.records[id];
      r.id == id && r.deployment == g.deployment && g.first <= r.eventTime && Activity(r) <= g.lastActivity
  }

  lemma {:induction false} FoldCovers(o: seq<Record>)
    ensures forall i :: 0 <= i < |Fold(o)| ==> Covers(Fold(o)[i])
  {
    if o != [] { FoldCovers(o[..|o| - 1]); }
  }

  lemma {:induction false} FoldHolds(o: seq<Record>)
    ensures forall i, id :: 0 <= i < |Fold(o)| && id in Fold(o)[i].records ==> Fold(o)[i].records[id] in o
  {
    if o != [] {
      FoldHolds(o[..|o| - 1]);
      assert o == o[..|o| - 1] + [o[|o| - 1]];
    }
  }

  lemma RecordNames(o: seq<Record>, i: nat)
    requires i < |Fold(o)|
    ensures Fold(o)[i].records.Keys <= Ids(o)
  {
    FoldCovers(o);
    FoldHolds(o);
    hide Fold;
    forall id | id in Fold(o)[i].records ensures id in Ids(o) { assert Fold(o)[i].records[id] in o; }
  }

  // ---------------------------------------------------------------- one family

  /** Every record a family holds belongs to its incident. */
  ghost predicate Own(f: Family) {
    && (forall r :: r in f.ordered ==> r.incident == Some(f.id))
    && (forall id :: id in f.evidence ==> f.evidence[id].record.incident == Some(f.id))
  }

  lemma ContributionCovered(f: Family, id: bytes)
    requires Intact(f) && Find(f.ordered, id).Some? && Containing(f.generations, id).Some?
    ensures var g, r := f.generations[Containing(f.generations, id).value].episode, Find(f.ordered, id).value;
            r.deployment == g.deployment && g.first <= r.eventTime && Activity(r) <= g.lastActivity
  {
    IntactIsAttached(f);
    var i, r := Containing(f.generations, id).value, Find(f.ordered, id).value;
    EpisodesOfArranged(Fold(f.ordered), f.evidence, 0, f.advancedTo);
    FoldCovers(f.ordered);
    FoldHolds(f.ordered);
    hide Fold, Containing, Find, AttachedTo, Sorted;
    assert r.id in Ids(f.ordered) && f.generations[i].evidence == AttachedTo(f.evidence, Episodes(f.generations), i);
    NotAttached(f.evidence, Episodes(f.generations), i, id);
    var x := Fold(f.ordered)[i].records[id];
    SameRecord(f.ordered, x, r);
  }

  lemma NotAttached(evidence: map<bytes, Evidence>, eps: seq<Episode>, i: nat, id: bytes)
    requires id !in evidence
    ensures id !in AttachedTo(evidence, eps, i)
  {
  }

  lemma SameRecord(o: seq<Record>, a: Record, b: Record)
    requires Distinct(o) && a in o && b in o && a.id == b.id
    ensures a == b
  {
  }

  lemma EvidenceCovered(f: Family, id: bytes)
    requires Intact(f) && id in f.evidence && Containing(f.generations, id).Some?
    ensures f.generations[Containing(f.generations, id).value].episode.deployment == f.evidence[id].record.deployment
  {
    IntactIsAttached(f);
    var i := Containing(f.generations, id).value;
    EpisodesOfArranged(Fold(f.ordered), f.evidence, 0, f.advancedTo);
    RecordNames(f.ordered, i);
    hide Fold, Containing, Sorted, EvidenceTarget;
    assert f.generations[i].episode == Fold(f.ordered)[i];
    assert id in AttachedTo(f.evidence, Episodes(f.generations), i);
  }

  lemma IntactCovers(f: Family, id: bytes, evidence: bool, late: bool)
    requires Intact(f) && FamilyDecision(f, id, evidence, late).Some?
    ensures Covered(f, id, evidence)
  {
    if evidence { EvidenceCovered(f, id); EvidenceNamed(f, id); } else { ContributionCovered(f, id); }
    hide Intact, Containing, Find;
  }

  /** The episode that holds a decided identity is of its deployment, and spans it if it is a contribution. */
  ghost predicate Covered(f: Family, id: bytes, evidence: bool) {
    && HeldRecord(f, id, evidence).Some? && Containing(f.generations, id).Some?
    && var r, g := HeldRecord(f, id, evidence).value, f.generations[Containing(f.generations, id).value].episode;
       && r.id == id && r.deployment == g.deployment
       && (!evidence ==> g.first <= r.eventTime && Activity(r) <= g.lastActivity)
  }

  lemma CoveredValidates(f: Family, id: bytes, evidence: bool, late: bool)
    requires Own(f) && (late ==> evidence) && FamilyIssues(f, id, evidence, late).Some? && Covered(f, id, evidence)
    ensures Validates(HeldRecord(f, id, evidence).value, FamilyIssues(f, id, evidence, late).value)
  {
    hide Containing, Find;
  }

  // ---------------------------------------------------------------- a family that has released records

  lemma SettledContribution(f: Family, k: nat)
    requires Settled(f) && k < |f.ordered|
    ensures Containing(f.generations, f.ordered[k].id).Some?
    ensures var g, r := f.generations[Containing(f.generations, f.ordered[k].id).value].episode, f.ordered[k];
            r.deployment == g.deployment && g.first <= r.eventTime && Activity(r) <= g.lastActivity
  {
    var o := f.ordered;
    ContributionAt(f, k);
    TierBounds(f);
    HeldAt(o, k);
    FoldCovers(o);
    FoldHolds(o);
    hide Containing, Sorted, Punctual, Attached, Behind, Numbered, Ord, Fold, StrictlySorted;
    assert LiveAs(Episodes(f.generations), o, Ord(o, k));
    SameRecord(o, Fold(o)[Ord(o, k)].records[o[k].id], o[k]);
  }

  lemma SettledCovers(f: Family, id: bytes, evidence: bool, late: bool)
    requires Settled(f) && FamilyDecision(f, id, evidence, late).Some?
    ensures Covered(f, id, evidence)
  {
    hide Containing, Find, Tiered, Behind, Numbered, EvidenceTarget, Ids;
    if evidence {
      EvidenceAt(f, id);
    } else {
      var r := Find(f.ordered, id).value;
      var k :| 0 <= k < |f.ordered| && f.ordered[k] == r;
      SettledContribution(f, k);
    }
  }

  lemma EvidenceNamed(f: Family, id: bytes)
    requires Intact(f) && id in f.evidence
    ensures f.evidence[id].record.id == id
  {
  }

  // ---------------------------------------------------------------- every family holds its own

  ghost predicate AllOwn(e: Engine) {
    forall id :: id in e.families ==> e.families[id].id == id && Own(e.families[id])
  }

  lemma ObserveKeepsOwn(f: Family, r: Record)
    requires Own(f) && r.incident == Some(f.id)
    ensures Own(ObserveFamily(f, r)) && ObserveFamily(f, r).id == f.id
  {
    hide ObserveFamily, IsEvidence;
    ObserveFamilyFields(f, r);
    assert forall x :: x in Inserted(f.ordered, r) ==> x == r || x in f.ordered;
  }

  lemma AdvanceKeepsOwn(f: Family, now: int, pinned: set<bytes>)
    requires Own(f)
    ensures Own(CompactFamily(AdvanceFamily(f, now), now, pinned))
    ensures CompactFamily(AdvanceFamily(f, now), now, pinned).id == f.id
  {
    AdvanceKeepsEpisodes(f, now);
    var g := AdvanceFamily(f, now);
    KeptRecords(g.ordered, Horizon(g, now), pinned);
    hide AdvanceFamily, Keep, Arrange, Reconstruct, LeadingEmpty, PrunesNothing, Horizon;
  }

  lemma StepKeepsOwn(e: Engine, input: Input)
    requires AllOwn(e)
    ensures AllOwn(Step(e, input))
  {
    hide ObserveFamily, AdvanceFamily, CompactFamily, Survives, Released, LocationOf, Own;
    match input
    case PinInput(_) =>
    case ObserveInput(r) =>
      if r.incident.Some? && r.id !in e.seen {
        if r.incident.value !in e.families { NewIsOwn(r.incident.value); }
        ObserveKeepsOwn(FamilyOf(e, r.incident.value), r);
      }
    case AdvanceInput(now) =>
      forall id | id in e.families
        ensures var g := CompactFamily(AdvanceFamily(e.families[id], now), now, e.pinned); g.id == id && Own(g)
      {
        AdvanceKeepsOwn(e.families[id], now, e.pinned);
      }
  }

  lemma NewIsOwn(id: bytes)
    ensures Own(NewFamily(id))
  {
  }

  lemma {:induction false} RunKeepsOwn(inputs: seq<Input>)
    ensures AllOwn(Run(EMPTY, inputs))
  {
    hide Step, Own;
    if inputs != [] {
      RunKeepsOwn(inputs[..|inputs| - 1]);
      StepKeepsOwn(Run(EMPTY, inputs[..|inputs| - 1]), inputs[|inputs| - 1]);
    }
  }

  /** Only evidence is ever late. */
  ghost predicate LateIsEvidence(e: Engine) {
    forall r :: r in e.seen && e.seen[r].late ==> e.seen[r].evidence
  }

  lemma StepKeepsLate(e: Engine, input: Input)
    requires LateIsEvidence(e)
    ensures LateIsEvidence(Step(e, input))
  {
    hide ObserveFamily, AdvanceFamily, CompactFamily, Survives, Released;
  }

  lemma {:induction false} RunKeepsLate(inputs: seq<Input>)
    ensures LateIsEvidence(Run(EMPTY, inputs))
  {
    hide Step, LateIsEvidence;
    if inputs == [] { NothingIsLate(); } else {
      RunKeepsLate(inputs[..|inputs| - 1]);
      StepKeepsLate(Run(EMPTY, inputs[..|inputs| - 1]), inputs[|inputs| - 1]);
    }
  }

  lemma NothingIsLate()
    ensures LateIsEvidence(EMPTY)
  {
  }

  /** The decision for an identity is that of its held record and passes the check. */
  ghost predicate IssuedWell(e: Engine, id: bytes)
    requires Issues(e, id).Some?
  {
    var f := e.families[e.seen[id].incident];
    && PersistenceDecision(e, id) == Some(Issues(e, id).value.decision)
    && HeldRecord(f, id, e.seen[id].evidence).Some?
    && Validates(HeldRecord(f, id, e.seen[id].evidence).value, Issues(e, id).value)
  }

  lemma CoveredIsIssuedWell(inputs: seq<Input>, id: bytes)
    requires Issues(Run(EMPTY, inputs), id).Some?
    requires var e := Run(EMPTY, inputs); Covered(e.families[e.seen[id].incident], id, e.seen[id].evidence)
    ensures IssuedWell(Run(EMPTY, inputs), id)
  {
    RunKeepsOwn(inputs);
    RunKeepsLate(inputs);
    hide Run, Own, Validates, FamilyDecision, HeldRecord;
    var e := Run(EMPTY, inputs);
    CoveredValidates(e.families[e.seen[id].incident], id, e.seen[id].evidence, e.seen[id].late);
  }

  /**
   * Every decision answered in a run that releases nothing passes the storage layer's check of the record it is about.
   */
  lemma DecisionsValidate(inputs: seq<Input>, id: bytes)
    requires QuietRun(EMPTY, inputs) && Issues(Run(EMPTY, inputs), id).Some?
    ensures IssuedWell(Run(EMPTY, inputs), id)
  {
    RunIsIntact(inputs);
    var e := Run(EMPTY, inputs);
    hide Run, QuietRun, Intact, FamilyDecision, IssuedWell, Covered;
    IntactCovers(e.families[e.seen[id].incident], id, e.seen[id].evidence, e.seen[id].late);
    CoveredIsIssuedWell(inputs, id);
  }

  /** So does every decision answered in a run that compacts, under the conditions that keep decisions final in it. */
  lemma CompactedDecisionsValidate(inputs: seq<Input>, id: bytes)
    requires CalmRun(inputs) && Issues(Run(EMPTY, inputs), id).Some?
    ensures IssuedWell(Run(EMPTY, inputs), id)
  {
    RunIsSettled(inputs);
    var e := Run(EMPTY, inputs);
    hide Run, CalmRun, Settled, FamilyDecision, IssuedWell, Covered;
    SettledCovers(e.families[e.seen[id].incident], id, e.seen[id].evidence, e.seen[id].late);
    CoveredIsIssuedWell(inputs, id);
  }
}
