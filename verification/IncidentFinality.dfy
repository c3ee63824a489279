/** Decisions are final over runs that compact: what was answered once is answered the same while it is remembered. */
module IncidentFinality {
  import opened Basics
  import opened IncidentModel
  import opened IncidentFold
  import opened IncidentRuns
  import opened IncidentTheorems
  import opened IncidentCompaction
  import opened IncidentDecisions
  import opened IncidentTiers
  import opened IncidentRelease
  import opened IncidentIndex

  // ---------------------------------------------------------------- one family

  /** Every shell lies behind the frontier. */
  ghost predicate Behind(f: Family) {
    if f.finalized.None? then Spent(Episodes(f.generations), f.ordered) <= 0
    else ShellsBehind(Episodes(f.generations), f.ordered, f.finalized.value)
  }

  ghost predicate Numbered(f: Family) {
    forall i :: 0 <= i < |f.generations| ==> f.generations[i].number == f.pruned + i + 1
  }

  ghost predicate Settled(f: Family) {
    Tiered(Episodes(f.generations), f.ordered) && Behind(f) && Attached(f) && Numbered(f)
  }

  lemma SettledIsWellFormed(f: Family)
    requires Settled(f)
    ensures WellFormed(f)
  {
    TieredIsLive(Episodes(f.generations), f.ordered);
    hide Live, Attached, Behind;
  }

  lemma NewIsSettled(id: bytes)
    ensures Settled(NewFamily(id))
  {
  }

  // ---------------------------------------------------------------- where a family holds an identity

  lemma EpisodeHolds(f: Family, i: nat, id: bytes)
    requires Settled(f) && i < |f.generations|
    ensures id in f.generations[i].episode.records <==>
              var j := i - Spent(Episodes(f.generations), f.ordered); 0 <= j < |Fold(f.ordered)| && id in Fold(f.ordered)[j].records
  {
    hide Fold, Settled, Tiered;
    SettledIsDistinct(f);
    TierBounds(f);
    var eps := Episodes(f.generations);
    var j := i - Spent(eps, f.ordered);
    ShellsAreEmpty(eps, f.ordered);
    if 0 <= j { LiveAsTiered(eps, f.ordered, j); }
  }

  lemma ContributionAt(f: Family, k: nat)
    requires Settled(f) && k < |f.ordered|
    ensures 0 <= Ord(f.ordered, k) && 0 <= Spent(Episodes(f.generations), f.ordered)
    ensures Containing(f.generations, f.ordered[k].id) ==
              Some(Spent(Episodes(f.generations), f.ordered) + Ord(f.ordered, k))
  {
    hide Fold, Ord, Containing, Settled, HasMember;
    var n := Spent(Episodes(f.generations), f.ordered);
    TierBounds(f);
    HeldAt(f.ordered, k);
    forall i: nat | i < |f.generations|
      ensures HasMember(f.generations[i], f.ordered[k].id) <==> i == n + Ord(f.ordered, k)
    {
      HoldsAt(f, k, i);
    }
    FirstIs(f.generations, f.ordered[k].id, n + Ord(f.ordered, k));
  }

  lemma TierBounds(f: Family)
    requires Settled(f)
    ensures Tidy(f.ordered) && 0 <= Spent(Episodes(f.generations), f.ordered)
    ensures |f.generations| == Spent(Episodes(f.generations), f.ordered) + |Fold(f.ordered)|
  {
    hide Fold, LiveAs;
  }

  lemma HoldsAt(f: Family, k: nat, i: nat)
    requires Settled(f) && k < |f.ordered| && i < |f.generations|
    ensures HasMember(f.generations[i], f.ordered[k].id) <==>
              i == Spent(Episodes(f.generations), f.ordered) + Ord(f.ordered, k)
  {
    hide Fold, Ord, Settled, Sorted, Distinct, Punctual, Attached;
    var o, id := f.ordered, f.ordered[k].id;
    TierBounds(f);
    SettledIsAttached(f);
    HeldAt(o, k);
    EpisodeHolds(f, i, id);
    assert o[k] in o && id in Ids(o);
    NotInEvidence(f, i, id);
    var j := i - Spent(Episodes(f.generations), o);
    if 0 <= j < |Fold(o)| && id in Fold(o)[j].records {
      var l := MemberAt(o, j, id);
      PositionOfId(o, l, k);
    }
  }

  lemma NotInEvidence(f: Family, i: nat, id: bytes)
    requires Attached(f) && i < |f.generations| && id in Ids(f.ordered)
    ensures id !in f.generations[i].evidence
  {
    hide EvidenceTarget;
    assert f.generations[i].evidence == AttachedTo(f.evidence, Episodes(f.generations), i);
  }

  lemma NotRecorded(f: Family, i: nat, id: bytes)
    requires Settled(f) && i < |f.generations| && id !in Ids(f.ordered)
    ensures id !in f.generations[i].episode.records
  {
    EpisodeHolds(f, i, id);
    var j := i - Spent(Episodes(f.generations), f.ordered);
    if 0 <= j < |Fold(f.ordered)| { MembersAreRetained(f.ordered, j); }
    hide Fold, Attached, Behind, Numbered;
  }

  lemma EvidenceAt(f: Family, id: bytes)
    requires Settled(f) && id in f.evidence && f.evidence[id].attach
    ensures var r := f.evidence[id].record;
            Containing(f.generations, id) == EvidenceTarget(Episodes(f.generations), r.deployment, r.eventTime)
  {
    var target := EvidenceTarget(Episodes(f.generations), f.evidence[id].record.deployment,
                                 f.evidence[id].record.eventTime);
    hide Fold, Containing, Behind, Numbered, Tiered, EvidenceTarget;
    forall i: nat | i < |f.generations| ensures HasMember(f.generations[i], id) <==> target == Some(i) {
      NotRecorded(f, i, id);
      assert f.generations[i].evidence == AttachedTo(f.evidence, Episodes(f.generations), i);
    }
    if target.Some? { FirstIs(f.generations, id, target.value); }
  }

  // ---------------------------------------------------------------- an arrival changes no decision

  /** `g` is `f` after it took a record at or behind its frontier's edge, or nothing, into its order. */
  ghost predicate Follows(f: Family, g: Family) {
    && Settled(f) && Settled(g) && g.id == f.id
    && (f.finalized.Some? ==> g.finalized.Some? && f.finalized.value <= g.finalized.value)
    && (forall id :: id in f.evidence ==> id in g.evidence && g.evidence[id] == f.evidence[id])
    && (g.ordered == f.ordered || exists x :: Took(f, g, x))
    && (f.ordered != [] ==> Spent(Episodes(g.generations), g.ordered) == Spent(Episodes(f.generations), f.ordered))
    && (f.finalized.Some? ==> Frozen(Episodes(f.generations), Episodes(g.generations), f.finalized.value))
  }

  ghost predicate Took(f: Family, g: Family, x: Record) {
    Fresh(f.ordered, x) && g.ordered == Inserted(f.ordered, x) && !Before(x.eventTime, f.finalized)
  }

  lemma SamePosition(f: Family, g: Family, k: nat)
    requires Follows(f, g) && k < |f.ordered| && Before(f.ordered[k].eventTime, f.finalized)
    ensures k < |g.ordered| && g.ordered[k] == f.ordered[k] && Ord(g.ordered, k) == Ord(f.ordered, k)
  {
    hide Settled, Frozen, Ord, Fold, Inserted, Rank;
    if g.ordered != f.ordered {
      var x :| Took(f, g, x);
      InsertKeepsOrder(f.ordered, x);
      OrderBehind(f.ordered, x, k);
      SamePrefix(f.ordered, x, k);
    }
  }

  lemma StartsAscend(eps: seq<Episode>, o: seq<Record>)
    requires Tiered(eps, o)
    ensures forall j, k :: 0 <= j < k < |eps| ==> eps[j].first <= eps[k].first
  {
    hide Fold, Tidy, LiveAs;
    forall j, k | 0 <= j < k < |eps| ensures eps[j].first <= eps[k].first { assert StartsBefore(eps[j], eps[k]); }
  }

  lemma SettledIsDistinct(f: Family)
    requires Settled(f)
    ensures Distinct(f.ordered) && Tiered(Episodes(f.generations), f.ordered)
  {
  }

  lemma FollowingDecides(f: Family, g: Family, id: bytes, evidence: bool, late: bool)
    requires Follows(f, g) && FamilyDecision(f, id, evidence, late).Some?
    ensures FamilyDecision(g, id, evidence, late) == FamilyDecision(f, id, evidence, late)
  {
    hide Settled, Containing, EvidenceTarget, Find, Ord, Spent, Inserted, Episodes, Distinct, Tiered;
    SettledIsDistinct(f);
    SettledIsDistinct(g);
    var r := HeldRecord(f, id, evidence).value;
    var i := Containing(f.generations, id).value;
    if evidence {
      EvidenceAt(f, id);
      EvidenceAt(g, id);
      StartsAscend(Episodes(g.generations), g.ordered);
      FrozenTarget(Episodes(f.generations), Episodes(g.generations), r.deployment, r.eventTime, f.finalized.value, i);
    } else {
      var k :| 0 <= k < |f.ordered| && f.ordered[k] == r;
      ContributionAt(f, k);
      SamePosition(f, g, k);
      FindExact(g.ordered, k);
      ContributionAt(g, k);
    }
  }

  /** The family with its episodes arranged anew after an arrival, before any leading episode is dropped. */
  ghost function Grown(f: Family, r: Record): Family {
    var h := TakeRecord(f, r);
    h.(generations := Arrange(EpisodesAfter(Episodes(f.generations), f.ordered, r), f.evidence, f.pruned, f.advancedTo))
  }

  /** The record would begin an episode of its own in front of one that has lost its own beginning. */
  ghost predicate TearsFamily(f: Family, r: Record) {
    Tears(Episodes(f.generations), f.ordered, r)
  }

  ghost predicate Joining(f: Family, r: Record) {
    Settled(f) && New(f, r) && r.observedTime >= r.eventTime && !Before(r.eventTime, f.finalized) && !TearsFamily(f, r)
  }

  lemma NewIsFresh(f: Family, r: Record)
    requires Settled(f) && New(f, r)
    ensures Fresh(f.ordered, r)
  {
    forall i | 0 <= i < |f.ordered| ensures f.ordered[i].id != r.id { assert f.ordered[i].id in Ids(f.ordered); }
  }

  lemma JoiningArrives(f: Family, r: Record)
    requires Joining(f, r)
    ensures Arrives(Episodes(f.generations), f.ordered, r)
  {
    NewIsFresh(f, r);
    hide Tiered, Tears, Attached, Numbered, Fold, Fresh;
  }

  lemma GrownFollows(f: Family, r: Record)
    requires Joining(f, r)
    ensures Follows(f, Grown(f, r))
  {
    var eps, o := Episodes(f.generations), f.ordered;
    JoiningArrives(f, r);
    NewIsFresh(f, r);
    ArrivalKeepsTiers(eps, o, r);
    GrownIsSettled(f, r);
    hide Tiered, Tears, Arrives, EpisodesAfter, Arrange, Attached, Numbered, Fold, Fresh, Settled, Inserted, Behind;
    GrownFields(f, r);
    assert Took(f, Grown(f, r), r) by { TookIs(f, r); }
    if f.finalized.Some? { FrozenEarlier(eps, EpisodesAfter(eps, o, r), r.eventTime, f.finalized.value); }
  }

  lemma TookIs(f: Family, r: Record)
    requires Joining(f, r)
    ensures Took(f, Grown(f, r), r)
  {
    NewIsFresh(f, r);
    hide Settled, Fresh, Arrange, EpisodesAfter;
  }

  lemma GrownFields(f: Family, r: Record)
    ensures var g := Grown(f, r);
            && g.id == f.id && g.finalized == f.finalized && g.evidence == f.evidence
            && g.ordered == Inserted(f.ordered, r)
            && Episodes(g.generations) == EpisodesAfter(Episodes(f.generations), f.ordered, r)
  {
    hide EpisodesAfter, AttachedTo, StatusAt;
  }

  lemma FrozenEarlier(a: seq<Episode>, b: seq<Episode>, t: int, bound: int)
    requires Frozen(a, b, t) && bound <= t
    ensures Frozen(a, b, bound)
  {
  }

  lemma GrownIsSettled(f: Family, r: Record)
    requires Joining(f, r)
    requires Arrived(Episodes(f.generations), f.ordered, r, EpisodesAfter(Episodes(f.generations), f.ordered, r))
    ensures Settled(Grown(f, r))
  {
    GrownFields(f, r);
    GrownIsAttached(f, r);
    GrownIsBehind(f, r);
    hide Tiered, Tears, EpisodesAfter, Fold, Frozen, Inserted, AttachedTo, StatusAt, Attached, Behind, Spent;
  }

  lemma GrownIsAttached(f: Family, r: Record)
    requires Attached(f) && New(f, r)
    ensures Attached(Grown(f, r))
  {
    GrownFields(f, r);
    IdsOfInserted(f.ordered, r);
    hide EpisodesAfter, Inserted, AttachedTo, StatusAt, Ids;
  }

  lemma GrownIsBehind(f: Family, r: Record)
    requires Behind(f)
    requires Arrived(Episodes(f.generations), f.ordered, r, EpisodesAfter(Episodes(f.generations), f.ordered, r))
    ensures Behind(Grown(f, r))
  {
    GrownFields(f, r);
    hide Tiered, Fold, Frozen, Inserted, EpisodesAfter, Arrange;
  }

  // ---------------------------------------------------------------- both ways in are the arranged one

  lemma ExtendIsGrown(f: Family, r: Record)
    requires Joining(f, r) && Rank(f.ordered, r) == |f.ordered|
    ensures Extend(TakeRecord(f, r), r) == Grown(f, r)
  {
    JoiningArrives(f, r);
    var eps := Episodes(f.generations);
    var m := |eps|;
    hide Fold, Tears, Joins, Begin, Contribute, AttachedTo, StatusAt, Tidy, Inserted, Rank, StrictlySorted;
    if m > 0 && Joins(eps[m - 1], r) {
      LastBegan(f, r);
      JoinedIsArranged(f, r);
    }
  }

  lemma LastBegan(f: Family, r: Record)
    requires Joining(f, r) && Rank(f.ordered, r) == |f.ordered| && f.generations != []
    ensures f.generations[|f.generations| - 1].episode.first <= r.eventTime
  {
    JoiningArrives(f, r);
    var eps, o := Episodes(f.generations), f.ordered;
    if o == [] {
      assert Spent(eps, o) == |eps|;
    } else {
      NewestIsLast(o, r);
      var j := |Fold(o)| - 1;
      assert LiveAs(eps, o, j);
    }
    hide Fold, Tidy, StrictlySorted, Tears;
  }

  lemma JoinedIsArranged(f: Family, r: Record)
    requires Attached(f) && Numbered(f) && f.generations != []
    requires Joins(f.generations[|f.generations| - 1].episode, r)
    requires f.generations[|f.generations| - 1].episode.first <= r.eventTime
    ensures var h := TakeRecord(f, r);
            Extend(h, r) ==
              h.(generations := Arrange(FoldStep(Episodes(f.generations), r), f.evidence, f.pruned, f.advancedTo))
  {
    var eps, n := Episodes(f.generations), |f.generations| - 1;
    var after := FoldStep(eps, r);
    var g := f.generations[n];
    hide AttachedTo, StatusAt, Joins;
    assert Contribute(g.episode, r).first == g.episode.first;
    assert Contribute(g.episode, r).deployment == g.episode.deployment;
    hide Contribute;
    var gens := f.generations[..n] + [g.(episode := Contribute(g.episode, r))];
    assert Episodes(gens) == after;
    forall i | 0 <= i < |after|
      ensures Refresh(gens, f.advancedTo)[i] == Arrange(after, f.evidence, f.pruned, f.advancedTo)[i]
    {
      AttachedBySameIdentity(f.evidence, eps, after, i);
    }
    assert Refresh(gens, f.advancedTo) == Arrange(after, f.evidence, f.pruned, f.advancedTo);
  }

  /** A rebuild is the arranged family with its leading empty episodes dropped. */
  lemma RebuildIsGrown(f: Family, r: Record) returns (released: nat)
    requires Rank(f.ordered, r) != |f.ordered|
    ensures var h, g := Grown(f, r), Rebuild(TakeRecord(f, r));
            && released <= |h.generations|
            && g == h.(generations := h.generations[released..], pruned := h.pruned + released)
            && forall i :: 0 <= i < released ==>
                 h.generations[i].episode.records == map[] && h.generations[i].evidence == map[]
  {
    hide Reconstruct, AttachedTo, StatusAt, Rank;
    released := LeadingEmpty(Grown(f, r).generations);
  }

  // ---------------------------------------------------------------- dropping leading empty episodes

  ghost function Dropped(h: Family, released: nat): Family
    requires released <= |h.generations|
  {
    h.(generations := h.generations[released..], pruned := h.pruned + released)
  }

  ghost predicate Droppable(h: Family, released: nat) {
    && released <= |h.generations|
    && forall i :: 0 <= i < released ==> h.generations[i].episode.records == map[] && h.generations[i].evidence == map[]
  }

  lemma DroppedEpisodes(h: Family, released: nat)
    requires released <= |h.generations|
    ensures Episodes(Dropped(h, released).generations) == Episodes(h.generations)[released..]
  {
  }

  lemma DroppedIsShrunk(h: Family, released: nat)
    requires Settled(h) && Droppable(h, released)
    ensures Shrunk(h, Dropped(h, released), Episodes(h.generations), released)
  {
    hide Tiered, Fold, Behind, Numbered, AttachedTo, Ids, LiveIsFold, Sorted, Distinct, Punctual;
    var eps := Episodes(h.generations);
    TieredIsLive(eps, h.ordered);
    LiveHoldsOnly(eps, h.ordered) by { TierTidy(eps, h.ordered); }
    forall i: nat | i < |eps| ensures eps[i].records == Restrict(eps[i].records, Ids(h.ordered)) {
      assert eps[i].records.Keys <= Ids(h.ordered);
    }
    forall i: nat | i < released ensures eps[i].records == map[] && AttachedTo(h.evidence, eps, i) == map[] {
      assert h.generations[i].evidence == AttachedTo(h.evidence, eps, i);
    }
  }

  lemma TierTidy(eps: seq<Episode>, o: seq<Record>)
    requires Tiered(eps, o)
    ensures Tidy(o)
  {
  }

  lemma DroppedIsSettled(h: Family, released: nat)
    requires Settled(h) && Droppable(h, released)
    ensures Settled(Dropped(h, released))
  {
    var eps := Episodes(h.generations);
    DroppedEpisodes(h, released);
    DroppedIsShrunk(h, released);
    ShrunkAttached(h, Dropped(h, released), eps, released);
    hide Tiered, Attached, Shrunk, Fold;
    DropKeepsTiers(eps, h.ordered, released, if h.finalized.Some? then h.finalized.value else 0);
  }

  lemma DroppedDecides(h: Family, released: nat, id: bytes, evidence: bool, late: bool)
    requires Settled(h) && Droppable(h, released) && Retains(h, id)
    ensures FamilyDecision(Dropped(h, released), id, evidence, late) == FamilyDecision(h, id, evidence, late)
  {
    DroppedIsShrunk(h, released);
    SettledIsDistinct(h);
    hide Settled, Shrunk, Distinct, Attached;
    ShrunkDecides(h, Dropped(h, released), Episodes(h.generations), released, id, evidence,
                  late) by { SettledIsAttached(h); }
  }

  lemma SettledIsAttached(f: Family)
    requires Settled(f)
    ensures Attached(f) && Numbered(f)
  {
  }

  // ---------------------------------------------------------------- observing

  lemma PlaceKeepsDecision(f: Family, r: Record, id: bytes, evidence: bool, late: bool)
    requires Joining(f, r)
    ensures Settled(Place(f, r))
    ensures FamilyDecision(f, id, evidence, late).Some? ==>
              FamilyDecision(Place(f, r), id, evidence, late) == FamilyDecision(f, id, evidence, late)
  {
    hide Joining, Grown, Follows, Extend, Rebuild, TakeRecord, FamilyDecision, Rank, Settled;
    GrownFollows(f, r);
    FollowIsSettled(f, Grown(f, r));
    if Rank(f.ordered, r) == |f.ordered| {
      ExtendIsGrown(f, r);
      if FamilyDecision(f, id, evidence, late).Some? { FollowingDecides(f, Grown(f, r), id, evidence, late); }
    } else {
      var released := RebuildIsGrown(f, r);
      DroppedIsSettled(Grown(f, r), released);
      if FamilyDecision(f, id, evidence, late).Some? {
        FollowingDecides(f, Grown(f, r), id, evidence, late);
        DecidedIsHeld(Grown(f, r), id, evidence, late);
        DroppedDecides(Grown(f, r), released, id, evidence, late);
      }
    }
  }

  lemma FollowIsSettled(f: Family, g: Family)
    requires Follows(f, g)
    ensures Settled(g)
  {
  }

  lemma NoteKeepsSettled(f: Family, r: Record)
    requires Settled(f)
    ensures Settled(Note(f, r))
    ensures Note(f, r).ordered == f.ordered && Note(f, r).evidence == f.evidence
    ensures Note(f, r).generations == f.generations
    ensures Note(f, r).id == f.id
    ensures f.finalized.Some? ==> Note(f, r).finalized.Some? && f.finalized.value <= Note(f, r).finalized.value
  {
    SettledSame(f, Note(f, r));
  }

  lemma SettledSame(f: Family, g: Family)
    requires Settled(f) && g.ordered == f.ordered && g.evidence == f.evidence && g.generations == f.generations
    requires g.pruned == f.pruned
    requires f.finalized.Some? ==> g.finalized.Some? && f.finalized.value <= g.finalized.value
    ensures Settled(g)
  {
    hide Tiered, Fold, AttachedTo, Ids;
  }

  /** Moving the frontier forward takes no decision back. */
  lemma LaterFrontierDecides(f: Family, g: Family, id: bytes, evidence: bool, late: bool)
    requires g.id == f.id && g.ordered == f.ordered && g.evidence == f.evidence && g.generations == f.generations
    requires f.finalized.Some? ==> g.finalized.Some? && f.finalized.value <= g.finalized.value
    requires FamilyDecision(f, id, evidence, late).Some?
    ensures FamilyDecision(g, id, evidence, late) == FamilyDecision(f, id, evidence, late)
  {
    hide Containing, Find;
  }

  lemma AttachOneAttaches(f: Family, r: Record)
    requires Attached(f) && New(f, r)
    ensures Attached(TakeEvidence(f, r))
    ensures Episodes(TakeEvidence(f, r).generations) == Episodes(f.generations)
    ensures forall i :: 0 <= i < |f.generations| ==> TakeEvidence(f, r).generations[i].number == f.generations[i].number
  {
    hide EvidenceTarget;
    var e, g := EvidenceOf(f, r), TakeEvidence(f, r);
    var eps := Episodes(f.generations);
    var target := EvidenceTarget(eps, r.deployment, r.eventTime);
    assert Episodes(g.generations) == eps;
    forall i: nat | i < |g.generations| ensures g.generations[i].evidence == AttachedTo(g.evidence, eps, i) {
      assert f.generations[i].evidence == AttachedTo(f.evidence, eps, i);
    }
  }

  lemma EvidenceFollows(f: Family, r: Record)
    requires Settled(f) && New(f, r)
    ensures Follows(f, TakeEvidence(f, r))
  {
    SettledIsAttached(f);
    AttachOneAttaches(f, r);
    hide Tiered, Attached, AttachOne, EvidenceOf, Fold, Spent;
  }

  lemma RequestDecides(f: Family, id: bytes, evidence: bool, late: bool)
    ensures FamilyDecision(Request(f), id, evidence, late) == FamilyDecision(f, id, evidence, late)
    ensures Settled(f) ==> Settled(Request(f))
  {
    RequestFields(f);
    if Settled(f) { SettledSame(f, Request(f)); }
    hide Request, Containing, Find, Tiered, Attached, Fold;
  }

  ghost predicate Observable(f: Family, r: Record) {
    && Settled(f) && New(f, r) && r.observedTime >= r.eventTime
    && (IsEvidence(Note(f, r), r) || !TearsFamily(f, r))
  }

  /** Whatever an observation does to a family, it changes no decision the family has answered. */
  lemma ObserveKeepsFamilyDecision(f: Family, r: Record, id: bytes, evidence: bool, late: bool)
    requires Observable(f, r)
    ensures Settled(ObserveFamily(f, r))
    ensures FamilyDecision(f, id, evidence, late).Some? ==>
              FamilyDecision(ObserveFamily(f, r), id, evidence, late) == FamilyDecision(f, id, evidence, late)
  {
    hide Settled, FamilyDecision, Place, Request, TakeEvidence, Tears, Follows;
    var g := Note(f, r);
    NoteKeepsSettled(f, r);
    if FamilyDecision(f, id, evidence, late).Some? { LaterFrontierDecides(f, g, id, evidence, late); }
    if IsEvidence(g, r) {
      EvidenceFollows(g, r);
      FollowIsSettled(g, TakeEvidence(g, r));
      if FamilyDecision(f, id, evidence, late).Some? { FollowingDecides(g, TakeEvidence(g, r), id, evidence, late); }
    } else {
      PlaceKeepsDecision(g, r, id, evidence, late);
      RequestDecides(Place(g, r), id, evidence, late);
    }
  }

  // ---------------------------------------------------------------- advancing and compacting

  lemma AdvanceKeepsSettled(f: Family, now: int)
    requires Settled(f)
    ensures Settled(AdvanceFamily(f, now))
  {
    AdvanceKeepsEpisodes(f, now);
    var g := AdvanceFamily(f, now);
    assert Episodes(g.generations) == Episodes(f.generations);
    hide AdvanceFamily, Tiered, Fold, AttachedTo, Ids, Episodes;
  }

  lemma ReleasedIsBehind(f: Family, now: int, k: nat)
    requires Bounded(f) && Sorted(f.ordered)
    requires var g := AdvanceFamily(f, now); k < Cut(g.ordered, Horizon(g, now)) && k < |g.ordered|
    ensures Before(AdvanceFamily(f, now).ordered[k].eventTime, AdvanceFamily(f, now).finalized)
  {
    var g := AdvanceFamily(f, now);
    AdvanceFamilyBounded(f, now);
    IncidentRelease.AdvanceKeepsRecords(f, now);
    BehindCut(g.ordered, Horizon(g, now), k);
    KeptMembers(g.ordered, Horizon(g, now), {});
    hide AdvanceFamily, Keep, Cut, KeepEvidence;
    assert g.ordered[k] in g.ordered;
    ReleasedWasFrozen(f, now, {}, g.ordered[k]);
  }

  /** The rebuild of a pruned family, before any leading episode is dropped. */
  ghost function Replaced(f: Family, now: int): Family {
    var p := Prune(f, now, {});
    p.(generations := Arrange(Reconstruct(Episodes(f.generations), p.ordered), p.evidence, p.pruned, p.advancedTo))
  }

  lemma RebuildIsReplaced(f: Family, now: int) returns (released: nat)
    ensures Droppable(Replaced(f, now), released) && Rebuild(Prune(f, now, {})) == Dropped(Replaced(f, now), released)
  {
    hide Reconstruct, AttachedTo, StatusAt, Keep, KeepEvidence, Horizon;
    released := LeadingEmpty(Replaced(f, now).generations);
  }

  lemma PrunedIsSuffix(f: Family, now: int)
    requires Tidy(f.ordered)
    ensures var c := Cut(f.ordered, Horizon(f, now));
            Prune(f, now, {}).ordered == f.ordered[c..] && Suffix(f.ordered, c, f.ordered[c..])
  {
    KeepIsSuffix(f.ordered, Horizon(f, now));
    DropIsSuffix(f.ordered, Cut(f.ordered, Horizon(f, now)));
    hide Keep, KeepEvidence, Cut, Horizon, Suffix;
  }

  lemma ReplacedIsTiered(f: Family, now: int)
    requires Settled(f) && f.finalized.Some?
    requires forall k :: 0 <= k < Cut(f.ordered, Horizon(f, now)) ==> f.ordered[k].eventTime < f.finalized.value
    ensures var g := Replaced(f, now);
            Tiered(Episodes(g.generations), g.ordered) &&
            ShellsBehind(Episodes(g.generations), g.ordered, f.finalized.value)
  {
    hide Fold, Keep, KeepEvidence, Cut, Horizon, Suffix, Reconstruct, AttachedTo, StatusAt, ShellsBehind, Tiered,
         Sorted, Distinct, Punctual;
    TierTidy(Episodes(f.generations), f.ordered) by { SettledIsDistinct(f); }
    PrunedIsSuffix(f, now);
    var c := Cut(f.ordered, Horizon(f, now));
    ReleaseIsTiered(Episodes(f.generations), f.ordered, c, f.ordered[c..], f.finalized.value);
    ReplacedFields(f, now);
  }

  lemma ReplacedFields(f: Family, now: int)
    ensures var g, p := Replaced(f, now), Prune(f, now, {});
            && g.ordered == p.ordered && g.evidence == p.evidence && g.finalized == f.finalized
            && Episodes(g.generations) == Reconstruct(Episodes(f.generations), p.ordered)
            && (forall i :: 0 <= i < |g.generations| ==>
                  g.generations[i].evidence == AttachedTo(g.evidence, Episodes(g.generations), i))
            && Numbered(g)
  {
    hide Reconstruct, AttachedTo, StatusAt, Keep, KeepEvidence, Horizon;
    EpisodesOfArranged(Reconstruct(Episodes(f.generations), Prune(f, now, {}).ordered), Prune(f, now, {}).evidence,
                       f.pruned, f.advancedTo);
  }

  lemma ReplacedIsSettled(f: Family, now: int)
    requires Settled(f) && f.finalized.Some?
    requires forall k :: 0 <= k < Cut(f.ordered, Horizon(f, now)) ==> f.ordered[k].eventTime < f.finalized.value
    ensures Settled(Replaced(f, now))
  {
    ReplacedIsTiered(f, now);
    ReplacedFields(f, now);
    SettledIsAttached(f);
    KeptRecords(f.ordered, Horizon(f, now), {});
    KeptNames(f, now);
    hide Fold, Keep, KeepEvidence, Cut, Horizon, Reconstruct, AttachedTo, Tiered, Numbered, Ids, Replaced, ShellsBehind,
         Prune;
    assert Attached(Replaced(f, now));
  }

  lemma KeptNames(f: Family, now: int)
    ensures var p := Prune(f, now, {});
            Ids(p.ordered) <= Ids(f.ordered) && forall id :: id in p.evidence ==>
                                                  id in f.evidence && p.evidence[id] == f.evidence[id]
  {
    KeptRecords(f.ordered, Horizon(f, now), {});
    hide Keep, Horizon;
  }

  lemma CompactKeepsSettled(f: Family, now: int)
    requires Settled(f) && Bounded(f)
    ensures Settled(CompactFamily(AdvanceFamily(f, now), now, {}))
  {
    var g := AdvanceFamily(f, now);
    hide AdvanceFamily, Settled, PrunesNothing, Rebuild, Prune, Replaced, Bounded, Cut, Horizon;
    AdvanceKeepsSettled(f, now);
    if !PrunesNothing(g, now, {}) {
      FrontierIsSet(f, now);
      SettledIsSorted(f);
      forall k | 0 <= k < Cut(g.ordered, Horizon(g, now))
        ensures g.finalized.Some? && g.ordered[k].eventTime < g.finalized.value
      {
        ReleasedIsBehind(f, now, k);
      }
      ReplacedIsSettled(g, now);
      var released := RebuildIsReplaced(g, now);
      DroppedIsSettled(Replaced(g, now), released);
    }
  }

  lemma SettledIsSorted(f: Family)
    requires Settled(f)
    ensures Sorted(f.ordered)
  {
  }

  lemma FrontierIsSet(f: Family, now: int)
    requires Bounded(f)
    ensures AdvanceFamily(f, now).finalized.Some?
  {
    AdvanceFamilyBounded(f, now);
    hide AdvanceFamily;
  }

  // ---------------------------------------------------------------- runs

  ghost predicate SettledEngine(e: Engine) {
    && e.pinned == {} && Backed(e) && BoundedEngine(e)
    && forall id :: id in e.families ==> Settled(e.families[id])
  }

  /** Nothing is pinned, records are not observed before they happen, and none tears an episode. */
  ghost predicate Calm(e: Engine, input: Input) {
    match input
    case PinInput(ids) => ids == {}
    case AdvanceInput(_) => true
    case ObserveInput(r) =>
      r.incident.Some? && r.id !in e.seen ==>
        && r.observedTime >= r.eventTime
        && var f := FamilyOf(e, r.incident.value); IsEvidence(Note(f, r), r) || !TearsFamily(f, r)
  }

  ghost predicate CalmRun(inputs: seq<Input>) {
    forall n :: 0 <= n < |inputs| ==> Calm(Run(EMPTY, inputs[..n]), inputs[n])
  }

  lemma FamilyIsSettled(e: Engine, id: bytes)
    requires SettledEngine(e)
    ensures Settled(FamilyOf(e, id))
  {
    NewIsSettled(id);
    hide Settled, Backed, BoundedEngine;
  }

  lemma UnknownIsNew(e: Engine, id: bytes, r: Record)
    requires Backed(e) && r.id !in e.seen
    ensures New(FamilyOf(e, id), r)
  {
    if id in e.families { assert Known(e.seen, id, e.families[id]); }
  }

  lemma ObservableNow(e: Engine, r: Record)
    requires SettledEngine(e) && Calm(e, ObserveInput(r)) && r.incident.Some? && r.id !in e.seen
    ensures Observable(FamilyOf(e, r.incident.value), r)
  {
    FamilyIsSettled(e, r.incident.value);
    UnknownIsNew(e, r.incident.value, r);
    hide Settled, Backed, BoundedEngine, New, TearsFamily, IsEvidence, FamilyOf;
  }

  lemma ObserveKeepsSettled(e: Engine, r: Record)
    requires SettledEngine(e) && Calm(e, ObserveInput(r)) && r.incident.Some? && r.id !in e.seen
    ensures forall id :: id in Observe(e, r).families ==> Settled(Observe(e, r).families[id])
  {
    hide Settled, SettledEngine, ObserveFamily, Observable, FamilyOf, FamilyDecision, Observe, Calm, LocationOf;
    ObservableNow(e, r);
    ObserveKeepsFamilyDecision(FamilyOf(e, r.incident.value), r, [], false, false);
    Observed(e, r);
    EachIsSettled(e);
  }

  lemma EachIsSettled(e: Engine)
    requires SettledEngine(e)
    ensures forall id :: id in e.families ==> Settled(e.families[id])
  {
  }

  lemma StepKeepsSettled(e: Engine, input: Input)
    requires SettledEngine(e) && Calm(e, input)
    ensures SettledEngine(Step(e, input))
  {
    StepKeepsBacked(e, input);
    StepKeepsBounded(e, input);
    hide Settled, Backed, ObserveFamily, AdvanceFamily, CompactFamily, Survives, Released, LocationOf, Bounded;
    match input
    case PinInput(_) =>
    case ObserveInput(r) => if r.incident.Some? && r.id !in e.seen { ObserveKeepsSettled(e, r); }
    case AdvanceInput(now) =>
      forall id | id in e.families ensures Settled(CompactFamily(AdvanceFamily(e.families[id], now), now, {})) {
        CompactKeepsSettled(e.families[id], now);
      }
  }

  lemma EmptyIsSettled()
    ensures SettledEngine(EMPTY)
  {
    EmptyIsBacked();
  }

  lemma CalmPrefix(inputs: seq<Input>, n: nat)
    requires CalmRun(inputs) && n <= |inputs|
    ensures CalmRun(inputs[..n])
  {
    hide Run, Calm;
    forall m | 0 <= m < n
      ensures Calm(Run(EMPTY, inputs[..n][..m]), inputs[..n][m])
    {
      assert inputs[..n][..m] == inputs[..m];
    }
  }

  lemma {:induction false} RunIsSettled(inputs: seq<Input>)
    requires CalmRun(inputs)
    ensures SettledEngine(Run(EMPTY, inputs))
  {
    hide SettledEngine, Step, Calm;
    if inputs == [] {
      EmptyIsSettled();
    } else {
      CalmPrefix(inputs, |inputs| - 1);
      RunIsSettled(inputs[..|inputs| - 1]);
      StepKeepsSettled(Run(EMPTY, inputs[..|inputs| - 1]), inputs[|inputs| - 1]);
    }
  }

  lemma ObserveKeepsDecided(e: Engine, r: Record, id: bytes)
    requires SettledEngine(e) && Calm(e, ObserveInput(r)) && PersistenceDecision(e, id).Some?
    ensures PersistenceDecision(Observe(e, r), id) == PersistenceDecision(e, id)
  {
    hide SettledEngine, ObserveFamily, Observable, FamilyDecision, LocationOf, Calm, Observe, FamilyOf;
    if r.incident.Some? && r.id !in e.seen {
      ObservableNow(e, r);
      Observed(e, r);
      FamilyHeld(e, e.seen[id].incident);
      ObserveKeepsFamilyDecision(FamilyOf(e, r.incident.value), r, id, e.seen[id].evidence, e.seen[id].late);
    } else {
      NothingObserved(e, r);
    }
  }

  lemma FamilyHeld(e: Engine, id: bytes)
    ensures id in e.families ==> FamilyOf(e, id) == e.families[id]
  {
  }

  lemma NothingObserved(e: Engine, r: Record)
    requires r.incident.None? || r.id in e.seen
    ensures Observe(e, r) == e
  {
  }

  lemma AdvanceKeepsDecided(e: Engine, now: int, id: bytes)
    requires SettledEngine(e) && PersistenceDecision(e, id).Some? && id in Advance(e, now).seen
    ensures PersistenceDecision(Advance(e, now), id) == PersistenceDecision(e, id)
  {
    forall x | x in e.families ensures WellFormed(e.families[x]) && Attached(e.families[x]) {
      SettledIsWellFormed(e.families[x]);
      SettledIsAttached(e.families[x]);
    }
    hide WellFormed, Attached, Settled, Backed, BoundedEngine, Advance, PersistenceDecision;
    AdvanceKeepsDecisions(e, now, id);
  }

  lemma StepKeepsDecided(e: Engine, input: Input, id: bytes)
    requires SettledEngine(e) && Calm(e, input) && PersistenceDecision(e, id).Some? && id in Step(e, input).seen
    ensures PersistenceDecision(Step(e, input), id) == PersistenceDecision(e, id)
  {
    hide SettledEngine, Calm, Observe, Advance, FamilyDecision;
    match input
    case PinInput(_) =>
    case ObserveInput(r) => ObserveKeepsDecided(e, r, id);
    case AdvanceInput(now) => AdvanceKeepsDecided(e, now, id);
  }

  /**
   * Over a run that compacts as it goes: once a decision is answered for a record, every later state that still
   * remembers the record answers the same incident, deployment, episode start, evidence flag and lateness.
   */
  lemma {:induction false} DecisionsOutliveCompaction(inputs: seq<Input>, n: nat, id: bytes)
    requires CalmRun(inputs) && n <= |inputs| && PersistenceDecision(Run(EMPTY, inputs[..n]), id).Some?
    requires forall k :: n <= k <= |inputs| ==> id in Run(EMPTY, inputs[..k]).seen
    ensures PersistenceDecision(Run(EMPTY, inputs), id) == PersistenceDecision(Run(EMPTY, inputs[..n]), id)
    decreases |inputs|
  {
    hide PersistenceDecision, SettledEngine, Step, Calm;
    if n == |inputs| {
      assert inputs[..n] == inputs;
    } else {
      var m := |inputs| - 1;
      assert inputs[..m][..n] == inputs[..n] && inputs[..m + 1] == inputs;
      forall k | n <= k <= m ensures id in Run(EMPTY, inputs[..m][..k]).seen { assert inputs[..m][..k] == inputs[..k]; }
      CalmPrefix(inputs, m);
      DecisionsOutliveCompaction(inputs[..m], n, id);
      RunIsSettled(inputs[..m]);
      StepKeepsDecided(Run(EMPTY, inputs[..m]), inputs[m], id);
    }
  }
}
