/** Compaction answers as before: the persistence decision of whatever a family retains does not change. */
module IncidentDecisions {
  import opened Basics
  import opened IncidentModel
  import opened IncidentFold
  import opened IncidentRuns
  import opened IncidentCompaction

  /** Evidence hangs exactly where its target is, under its own identity, and is no contribution. */
  ghost predicate Attached(f: Family) {
    && (forall i :: 0 <= i < |f.generations| ==>
          f.generations[i].evidence == AttachedTo(f.evidence, Episodes(f.generations), i))
    && (forall id :: id in f.evidence ==> f.evidence[id].record.id == id && id !in Ids(f.ordered))
  }

  predicate Retains(f: Family, id: bytes) {
    id in Ids(f.ordered) || id in f.evidence
  }

  predicate HasMember(g: Generation, id: bytes) {
    id in g.episode.records || id in g.evidence
  }

  // ---------------------------------------------------------------- evidence keeps its target

  /** Leaving out leading episodes that are not the target only shifts it. */
  lemma {:induction false} TargetOfDrop(eps: seq<Episode>, n: nat, deployment: bytes, t: int)
    requires n <= |eps| && EvidenceTarget(eps, deployment, t).Some? && n <= EvidenceTarget(eps, deployment, t).value
    ensures EvidenceTarget(eps[n..], deployment, t) == Some(EvidenceTarget(eps, deployment, t).value - n)
    decreases |eps|
  {
    var last := |eps| - 1;
    assert n <= last && eps[n..][..|eps[n..]| - 1] == eps[..last][n..] && eps[n..][|eps[n..]| - 1] == eps[last];
    if eps[last].deployment != deployment {
      TargetOfDrop(eps[..last], n, deployment, t);
    } else if eps[last].first > t {
      if EvidenceTarget(eps[..last], deployment, t).Some? {
        TargetOfDrop(eps[..last], n, deployment, t);
      } else {
        NoTargetInDrop(eps[..last], n, deployment, t);
      }
    }
  }

  lemma NoTargetInDrop(eps: seq<Episode>, n: nat, deployment: bytes, t: int)
    requires n <= |eps| && EvidenceTarget(eps, deployment, t).None?
    ensures EvidenceTarget(eps[n..], deployment, t).None?
  {
    TargetExact(eps, deployment, t);
    TargetExact(eps[n..], deployment, t);
  }

  lemma AttachedBeyond(evidence: map<bytes, Evidence>, eps: seq<Episode>, n: nat, id: bytes)
    requires forall k: nat :: k < n ==> AttachedTo(evidence, eps, k) == map[]
    requires id in evidence && evidence[id].attach
    requires EvidenceTarget(eps, evidence[id].record.deployment, evidence[id].record.eventTime).Some?
    ensures n <= EvidenceTarget(eps, evidence[id].record.deployment, evidence[id].record.eventTime).value
  {
    hide EvidenceTarget;
    var k := EvidenceTarget(eps, evidence[id].record.deployment, evidence[id].record.eventTime).value;
    assert id in AttachedTo(evidence, eps, k);
  }

  /** When nothing is attached to the first n episodes, leaving them out shifts every attachment. */
  lemma AttachedAfterDrop(evidence: map<bytes, Evidence>, eps: seq<Episode>, n: nat, i: nat)
    requires n <= |eps| && i < |eps| - n
    requires forall k: nat :: k < n ==> AttachedTo(evidence, eps, k) == map[]
    ensures AttachedTo(evidence, eps[n..], i) == AttachedTo(evidence, eps, n + i)
  {
    hide EvidenceTarget;
    forall id | id in evidence && evidence[id].attach
      ensures EvidenceTarget(eps[n..], evidence[id].record.deployment, evidence[id].record.eventTime) == Some(i) <==>
              EvidenceTarget(eps, evidence[id].record.deployment, evidence[id].record.eventTime) == Some(n + i)
    {
      var r := evidence[id].record;
      var target := EvidenceTarget(eps, r.deployment, r.eventTime);
      if target.None? {
        NoTargetInDrop(eps, n, r.deployment, r.eventTime);
      } else {
        AttachedBeyond(evidence, eps, n, id);
        TargetOfDrop(eps, n, r.deployment, r.eventTime);
      }
    }
  }

  lemma FewerAttached(evidence: map<bytes, Evidence>, kept: map<bytes, Evidence>, eps: seq<Episode>, i: nat)
    requires forall id :: id in kept ==> id in evidence && kept[id] == evidence[id]
    ensures forall id :: id in kept ==> (id in AttachedTo(kept, eps, i) <==> id in AttachedTo(evidence, eps, i))
    ensures forall id :: id in AttachedTo(kept, eps, i) ==> id in kept
    ensures forall id :: id in AttachedTo(evidence, eps, i) ==> id in evidence
  {
    hide EvidenceTarget;
  }

  // ---------------------------------------------------------------- one compaction, episode by episode

  /** Episodes hold records of the order only. */
  ghost predicate HoldsOnly(eps: seq<Episode>, o: seq<Record>) {
    forall i :: 0 <= i < |eps| ==> eps[i].records.Keys <= Ids(o)
  }

  lemma LiveHoldsOnly(eps: seq<Episode>, o: seq<Record>)
    requires LiveIsFold(eps, o) && Tidy(o)
    ensures HoldsOnly(eps, o)
  {
    hide Fold, LiveIsFold, Live, Tidy;
    forall i: nat, id | i < |eps| && id in eps[i].records ensures id in Ids(o) {
      LiveRecords(eps, o, i);
      var k := MemberAt(o, |Live(eps[..i])|, id);
    }
  }

  lemma Replaced(f: Family, now: int)
    requires WellFormed(f)
    ensures SamePlaces(Episodes(f.generations), Reconstruct(Episodes(f.generations), Prune(f, now, {}).ordered), Prune(f, now, {}).ordered)
  {
    hide Cut, Keep, KeepEvidence, Reconstruct, LiveIsFold, StrictlySorted, Sorted, Distinct, Punctual, Episodes,
         SamePlaces, AllPlaced, Base;
    var o, c := f.ordered, Cut(f.ordered, Horizon(f, now));
    KeepIsSuffix(o, Horizon(f, now));
    DropIsSuffix(o, c);
    ReconstructKeepsPlaces(Episodes(f.generations), o, c, o[c..]);
    AllPlacedKeep(Episodes(f.generations), o, c, o[c..]);
  }

  lemma SamePlacesSameIdentity(eps: seq<Episode>, r: seq<Episode>, t: seq<Record>)
    requires SamePlaces(eps, r, t)
    ensures SameIdentity(eps, r)
  {
    hide Restrict;
  }

  /**
   * `g` is `f` with its episodes replaced by `r`, less the first `released`, and less some of its records and evidence.
   */
  ghost predicate Shrunk(f: Family, g: Family, r: seq<Episode>, released: nat) {
    && SamePlaces(Episodes(f.generations), r, g.ordered) && released <= |r|
    && g.id == f.id && g.finalized == f.finalized
    && Ids(g.ordered) <= Ids(f.ordered) && (forall x :: x in g.ordered ==> x in f.ordered)
    && HoldsOnly(Episodes(f.generations), f.ordered)
    && (forall id :: id in g.evidence ==> id in f.evidence && g.evidence[id] == f.evidence[id])
    && |g.generations| == |r| - released
    && (forall i :: 0 <= i < |g.generations| ==>
         g.generations[i].episode == r[i + released] &&
         g.generations[i].evidence == AttachedTo(g.evidence, r, i + released))
    && (forall i: nat :: i < released ==> r[i].records == map[] && AttachedTo(g.evidence, r, i) == map[])
  }

  lemma {:induction false} KeptRecords(s: seq<Record>, horizon: int, pinned: set<bytes>)
    ensures forall r :: r in Keep(s, horizon, pinned) ==> r in s
  {
    if s != [] { KeptRecords(s[..|s| - 1], horizon, pinned); }
  }

  lemma ShapeHoldsOnly(f: Family)
    requires WellFormed(f)
    ensures HoldsOnly(Episodes(f.generations), f.ordered)
  {
    hide Sorted, Distinct, Punctual, HoldsOnly;
    LiveHoldsOnly(Episodes(f.generations), f.ordered);
  }

  lemma RebuildShrinks(f: Family, now: int) returns (r: seq<Episode>, released: nat)
    requires WellFormed(f)
    ensures Shrunk(f, Rebuild(Prune(f, now, {})), r, released)
  {
    hide Keep, Reconstruct, AttachedTo, StatusAt, WellFormed, HoldsOnly, Horizon, SamePlaces;
    var p := Prune(f, now, {});
    r := Reconstruct(Episodes(f.generations), p.ordered);
    var all := Arrange(r, p.evidence, p.pruned, p.advancedTo);
    released := LeadingEmpty(all);
    Replaced(f, now);
    ShapeHoldsOnly(f);
    KeptRecords(f.ordered, Horizon(f, now), {});
    PlacesLength(Episodes(f.generations), r, p.ordered);
  }

  lemma PlacesLength(eps: seq<Episode>, r: seq<Episode>, t: seq<Record>)
    requires SamePlaces(eps, r, t)
    ensures |r| == |eps|
  {
  }

  /** What stays is found in the same episode, and in no released one. */
  lemma MembersKept(f: Family, g: Family, r: seq<Episode>, released: nat, id: bytes, k: nat)
    requires Attached(f) && Shrunk(f, g, r, released) && Retains(g, id) && k < |f.generations|
    ensures |f.generations| == |g.generations| + released
    ensures HasMember(f.generations[k], id) <==> k >= released && HasMember(g.generations[k - released], id)
  {
    var eps := Episodes(f.generations);
    SamePlacesSameIdentity(eps, r, g.ordered);
    AttachedBySameIdentity(g.evidence, eps, r, k);
    FewerAttached(f.evidence, g.evidence, eps, k);
    hide AttachedTo, SameIdentity, Ids;
    RecordsKept(eps, r, g.ordered, id, k);
    assert f.generations[k].episode == eps[k];
    if k >= released { assert g.generations[k - released].episode == r[k]; }
  }

  lemma RecordsKept(eps: seq<Episode>, r: seq<Episode>, t: seq<Record>, id: bytes, k: nat)
    requires SamePlaces(eps, r, t) && k < |eps|
    ensures id in r[k].records <==> id in eps[k].records && id in Ids(t)
  {
    hide Ids;
  }

  lemma FirstIs(gens: seq<Generation>, id: bytes, i: nat)
    requires i < |gens| && HasMember(gens[i], id) && forall k :: 0 <= k < i ==> !HasMember(gens[k], id)
    ensures Containing(gens, id) == Some(i)
  {
    hide Containing;
  }

  lemma ContainingKept(f: Family, g: Family, r: seq<Episode>, released: nat, id: bytes)
    requires Attached(f) && Shrunk(f, g, r, released) && Retains(g, id)
    ensures |f.generations| == |g.generations| + released
    ensures Containing(f.generations, id) == if Containing(g.generations, id).None? then None else Some(Containing(g.generations, id).value + released)
  {
    hide Containing, Attached, Shrunk, Retains;
    forall k: nat | k < |f.generations|
      ensures |f.generations| == |g.generations| + released
      ensures HasMember(f.generations[k], id) <==> k >= released && HasMember(g.generations[k - released], id)
    {
      MembersKept(f, g, r, released, id, k);
    }
    ShrunkLength(f, g, r, released);
    var i := Containing(g.generations, id);
    if i.Some? {
      assert HasMember(f.generations[i.value + released], id);
      FirstIs(f.generations, id, i.value + released);
    }
  }

  lemma ShrunkLength(f: Family, g: Family, r: seq<Episode>, released: nat)
    requires Shrunk(f, g, r, released)
    ensures |f.generations| == |g.generations| + released
  {
    hide Ids, AttachedTo, Restrict;
  }

  lemma {:induction false} FindByName(s: seq<Record>, t: seq<Record>, id: bytes)
    requires Distinct(s) && (forall x :: x in t ==> x in s) && id in Ids(t)
    ensures Find(t, id) == Find(s, id)
  {
    hide Find;
    var x :| x in t && x.id == id;
    var y, z := Find(s, id).value, Find(t, id).value;
    var i :| 0 <= i < |s| && s[i] == y;
    var j :| 0 <= j < |s| && s[j] == z;
  }

  lemma HeldKept(f: Family, g: Family, r: seq<Episode>, released: nat, id: bytes, evidence: bool)
    requires Attached(f) && Shrunk(f, g, r, released) && Retains(g, id) && Distinct(f.ordered)
    ensures HeldRecord(g, id, evidence) == HeldRecord(f, id, evidence)
  {
    hide AttachedTo, SamePlaces, Find, Distinct;
    if id in Ids(g.ordered) {
      FindByName(f.ordered, g.ordered, id);
    } else {
      NotFound(g.ordered, id);
      NotFound(f.ordered, id);
    }
  }

  lemma NotFound(s: seq<Record>, id: bytes)
    requires id !in Ids(s)
    ensures Find(s, id) == None
  {
    hide Find;
    assert forall x :: x in s ==> x.id in Ids(s);
  }

  lemma ShrunkDecides(f: Family, g: Family, r: seq<Episode>, released: nat, id: bytes, evidence: bool, late: bool)
    requires Attached(f) && Shrunk(f, g, r, released) && Retains(g, id) && Distinct(f.ordered)
    ensures FamilyDecision(g, id, evidence, late) == FamilyDecision(f, id, evidence, late)
  {
    hide Containing, Attached, Retains, HeldRecord, Distinct, AttachedTo, Restrict, Ids;
    HeldKept(f, g, r, released, id, evidence);
    ContainingKept(f, g, r, released, id);
    var i := Containing(g.generations, id);
    if i.Some? {
      assert Episodes(f.generations)[i.value + released] == f.generations[i.value + released].episode;
      assert g.generations[i.value].episode == r[i.value + released];
    }
  }

  lemma ShrunkAttached(f: Family, g: Family, r: seq<Episode>, released: nat)
    requires Attached(f) && Shrunk(f, g, r, released)
    ensures Attached(g)
  {
    hide AttachedTo, SamePlaces, Ids;
    forall i: nat | i < |g.generations|
      ensures g.generations[i].evidence == AttachedTo(g.evidence, Episodes(g.generations), i)
    {
      assert Episodes(g.generations) == r[released..];
      AttachedAfterDrop(g.evidence, r, released, i);
    }
  }

  /**
   * Compacting a well-formed family with nothing pinned changes the persistence decision of no record or evidence it
   * retains, and leaves its evidence attached where it belongs.
   */
  lemma CompactionKeepsDecisions(f: Family, now: int, id: bytes, evidence: bool, late: bool)
    requires WellFormed(f) && Attached(f)
    ensures Attached(CompactFamily(f, now, {}))
    ensures Retains(CompactFamily(f, now, {}), id) ==>
              FamilyDecision(CompactFamily(f, now, {}), id, evidence, late) == FamilyDecision(f, id, evidence, late)
  {
    if !PrunesNothing(f, now, {}) {
      var g := Rebuild(Prune(f, now, {}));
      hide PrunesNothing, Prune, Rebuild, Attached, Shrunk, Retains, FamilyDecision, LiveIsFold, StrictlySorted, Sorted,
           Punctual, Distinct;
      var r, released := RebuildShrinks(f, now);
      ShrunkAttached(f, g, r, released);
      if Retains(g, id) { ShrunkDecides(f, g, r, released, id, evidence, late); }
    }
  }

  /** A family nothing was released from has its evidence attached. */
  lemma IntactIsAttached(f: Family)
    requires Intact(f)
    ensures Attached(f)
  {
    hide Fold, AttachedTo, StatusAt, Sorted, Distinct, Ids;
    EpisodesOfArranged(Fold(f.ordered), f.evidence, 0, f.advancedTo);
  }

  // ---------------------------------------------------------------- a whole Advance

  /** Advancing moves the frontier forward and leaves records, evidence and episodes alone. */
  lemma AdvanceKeepsEpisodes(f: Family, now: int)
    ensures var g := AdvanceFamily(f, now);
            && g.id == f.id && g.ordered == f.ordered && g.evidence == f.evidence && |g.generations| == |f.generations|
            && g.pruned == f.pruned
            && (f.finalized.Some? ==> g.finalized.Some? && f.finalized.value <= g.finalized.value)
            && forall i :: 0 <= i < |f.generations| ==>
                 g.generations[i].episode == f.generations[i].episode &&
                 g.generations[i].evidence == f.generations[i].evidence &&
                 g.generations[i].number == f.generations[i].number
  {
    hide Satisfied, StatusAt, GenerationCount;
  }

  lemma AdvanceKeepsShape(f: Family, now: int)
    requires WellFormed(f) && Attached(f)
    ensures WellFormed(AdvanceFamily(f, now)) && Attached(AdvanceFamily(f, now))
  {
    AdvanceKeepsEpisodes(f, now);
    assert Episodes(AdvanceFamily(f, now).generations) == Episodes(f.generations);
    hide AdvanceFamily, LiveIsFold, StrictlySorted, Sorted, Distinct, Punctual, AttachedTo, Ids, Episodes;
  }

  lemma SameMembersSameContaining(a: seq<Generation>, b: seq<Generation>, id: bytes)
    requires |a| == |b| && forall i :: 0 <= i < |a| ==> HasMember(a[i], id) == HasMember(b[i], id)
    ensures Containing(a, id) == Containing(b, id)
  {
    hide Containing;
    if Containing(a, id).Some? { FirstIs(b, id, Containing(a, id).value); }
  }

  lemma AdvanceKeepsDecision(f: Family, now: int, id: bytes, evidence: bool, late: bool)
    requires FamilyDecision(f, id, evidence, late).Some?
    ensures FamilyDecision(AdvanceFamily(f, now), id, evidence, late) == FamilyDecision(f, id, evidence, late)
  {
    AdvanceKeepsEpisodes(f, now);
    hide AdvanceFamily, Containing, Find;
    SameMembersSameContaining(f.generations, AdvanceFamily(f, now).generations, id);
  }

  lemma DecidedIsHeld(f: Family, id: bytes, evidence: bool, late: bool)
    requires FamilyDecision(f, id, evidence, late).Some?
    ensures Retains(f, id)
  {
    hide Containing, Find;
  }

  /** What a family held is either retained or forgotten. */
  lemma RetainedOrReleased(f: Family, now: int, id: bytes)
    requires Retains(f, id) && id !in Released(f, now, {})
    ensures Retains(CompactFamily(f, now, {}), id)
  {
    hide Keep, KeepEvidence, Arrange, Reconstruct, LeadingEmpty, Horizon;
  }

  lemma RetainingSurvives(f: Family, now: int, id: bytes)
    requires Retains(f, id)
    ensures Survives(f, now)
  {
  }

  /**
   * Advance compacts, and still: with nothing pinned and every family well formed, a decision that was answered for a
   * record the engine has not forgotten is answered the same afterwards.
   */
  lemma AdvanceKeepsDecisions(e: Engine, now: int, id: bytes)
    requires e.pinned == {} && forall x :: x in e.families ==> WellFormed(e.families[x]) && Attached(e.families[x])
    requires PersistenceDecision(e, id).Some? && id in Advance(e, now).seen
    ensures PersistenceDecision(Advance(e, now), id) == PersistenceDecision(e, id)
  {
    hide WellFormed, Attached, AdvanceFamily, CompactFamily, Released, FamilyDecision, Survives, Retains;
    var at := e.seen[id];
    var f := e.families[at.incident];
    var g := AdvanceFamily(f, now);
    AdvanceKeepsShape(f, now);
    AdvanceKeepsDecision(f, now, id, at.evidence, at.late);
    DecidedIsHeld(g, id, at.evidence, at.late);
    RetainedOrReleased(g, now, id);
    RetainingSurvives(CompactFamily(g, now, {}), now, id);
    CompactionKeepsDecisions(g, now, id, at.evidence, at.late);
  }
}
