/** The engine and its families as objects updated in place, proved to follow the model step by step. */
module IncidentEngine {
  import opened Basics
  import opened IncidentModel
  import opened IncidentFold
  import opened IncidentThreshold
  import opened IncidentRuns
  import opened IncidentSteps
  import opened IncidentIndex
  import opened IncidentReports

  /** Eligible times ascend and none is later than the newest retained record. */
  ghost predicate Top(g: Episode, ordered: seq<Record>) {
    TimesAscend(g.eligible) && (g.eligible != [] ==>
                                  ordered != [] && AtMost(g.eligible, ordered[|ordered| - 1].eventTime))
  }

  ghost predicate Tops(eps: seq<Episode>, ordered: seq<Record>) {
    forall i :: 0 <= i < |eps| ==> Top(eps[i], ordered)
  }

  lemma {:induction false} SortKeeps(s: seq<Episode>, ordered: seq<Record>)
    requires Tops(s, ordered)
    ensures Tops(StableSort(s), ordered)
  {
    if s != [] {
      hide Top;
      SortKeeps(s[..|s| - 1], ordered);
      InsertKeepsTops(StableSort(s[..|s| - 1]), s[|s| - 1], ordered);
    }
  }

  lemma {:induction false} InsertKeepsTops(s: seq<Episode>, g: Episode, ordered: seq<Record>)
    requires Tops(s, ordered) && Top(g, ordered)
    ensures Tops(StableInsert(s, g), ordered)
  {
    hide Top;
    if s != [] && StartsBefore(g, s[|s| - 1]) { InsertKeepsTops(s[..|s| - 1], g, ordered); }
  }

  lemma {:induction false} AdoptionKeepsTops(prior: seq<Episode>, folded: seq<Episode>, ordered: seq<Record>)
    requires Tops(folded, ordered)
    ensures Tops(AdoptAll(prior, folded).episodes, ordered)
  {
    if folded != [] { AdoptionKeepsTops(prior, folded[..|folded| - 1], ordered); hide Match, TimesAscend, AtMost; }
  }

  lemma {:induction false} ShellsAreTops(prior: seq<Episode>, adopted: set<nat>, held: set<bytes>, ordered: seq<Record>)
    ensures Tops(Shells(prior, adopted, held), ordered)
  {
    if prior != [] { ShellsAreTops(prior[..|prior| - 1], adopted, held, ordered); }
  }

  lemma ReconstructTops(prior: seq<Episode>, ordered: seq<Record>)
    requires Sorted(ordered)
    ensures Tops(Reconstruct(prior, ordered), ordered)
  {
    var a := AdoptAll(prior, Fold(ordered));
    if ordered != [] {
      forall k | 0 <= k < |ordered| ensures ordered[k].eventTime <= ordered[|ordered| - 1].eventTime {
        assert k == |ordered| - 1 || SortsBefore(ordered[k], ordered[|ordered| - 1]);
      }
      FoldOpen(ordered, ordered[|ordered| - 1].eventTime);
    }
    hide Fold, AdoptAll, Shells, StableSort, Ids;
    AdoptionKeepsTops(prior, Fold(ordered), ordered);
    ShellsAreTops(prior, a.adopted, Ids(ordered), ordered);
    SortKeeps(a.episodes + Shells(prior, a.adopted, Ids(ordered)), ordered);
  }

  lemma InsertKeepsNewest(eps: seq<Episode>, o: seq<Record>, x: Record)
    requires Tops(eps, o) && Fresh(o, x)
    ensures Tops(eps, Inserted(o, x))
  {
    RankSplits(o, x);
    var n := Inserted(o, x);
    if o != [] && Rank(o, x) == |o| { assert SortsBefore(o[|o| - 1], x); }
    hide TimesAscend;
  }

  ghost predicate Holding(events: map<bytes, Record>, ordered: seq<Record>) {
    events.Keys == Ids(ordered) && forall r :: r in ordered ==> events[r.id] == r
  }

  lemma HoldingInserted(events: map<bytes, Record>, o: seq<Record>, x: Record)
    requires Holding(events, o) && Fresh(o, x)
    ensures Holding(events[x.id := x], Inserted(o, x))
  {
    IdsOfInserted(o, x);
    InsertKeepsOrder(o, x);
    hide Inserted;
    forall r | r in o ensures r.id != x.id { }
  }

  lemma HoldingKeys(events: map<bytes, Record>, o: seq<Record>)
    requires Holding(events, o)
    ensures events.Keys == Ids(o)
  {
  }

  lemma TopsDrop(eps: seq<Episode>, ordered: seq<Record>, n: nat)
    requires Tops(eps, ordered) && n <= |eps|
    ensures Tops(eps[n..], ordered)
  {
    hide Top;
  }

  lemma EpisodesDrop(eps: seq<Episode>, evidence: map<bytes, Evidence>, pruned: nat, at: Option<int>, n: nat)
    requires n <= |eps|
    ensures Episodes(Arrange(eps, evidence, pruned, at)[n..]) == eps[n..]
  {
    hide AttachedTo, StatusAt;
  }

  /** foldEpisodes, the evidence attachment, and the release of the leading empty run. */
  method Reassemble(prior: seq<Episode>, ordered: seq<Record>, events: map<bytes, Record>,
                    evidence: map<bytes, Evidence>,
                    pruned: nat, advancedTo: Option<int>) returns (gens: seq<Generation>, released: nat)
    requires Sorted(ordered) && events.Keys == Ids(ordered)
    requires forall id :: id in evidence ==> evidence[id].record.id == id
    ensures var all := Arrange(Reconstruct(prior, ordered), evidence, pruned, advancedTo);
            released == LeadingEmpty(all) && gens == all[released..]
    ensures Tops(Episodes(gens), ordered)
  {
    hide Sorted, Fold, AdoptAll, Shells, StableSort, Arrange, Top, Tops, LeadingEmpty, Ids;
    var folded := FoldEpisodes(ordered);
    var episodes, shells := AdoptAssignedIdentities(prior, folded, events);
    var eps := StableSort(episodes + shells);
    assert eps == Reconstruct(prior, ordered);
    hide Reconstruct, Episodes;
    ReconstructTops(prior, ordered);
    var all := AttachAndNumber(eps, evidence, pruned, advancedTo);
    released := ReleaseLeading(all);
    gens := all[released..];
    TopsDrop(eps, ordered, released);
    EpisodesDrop(eps, evidence, pruned, advancedTo, released);
  }

  lemma LastTop(eps: seq<Episode>, ordered: seq<Record>)
    requires Tops(eps, ordered) && eps != []
    ensures Top(eps[|eps| - 1], ordered)
  {
    hide Top;
  }

  lemma TopsReplaced(eps: seq<Episode>, ordered: seq<Record>, g: Episode)
    requires Tops(eps, ordered) && Top(g, ordered)
    ensures Tops(eps + [g], ordered)
    ensures eps != [] ==> Tops(eps[..|eps| - 1] + [g], ordered)
  {
    hide Top;
  }

  /** extend writes only the last episode, and the new record is the newest retained. */
  lemma ExtendKeepsTops(f: Family, r: Record)
    requires f.ordered != [] && f.ordered[|f.ordered| - 1] == r && Tops(Episodes(f.generations), f.ordered)
    ensures Tops(Episodes(Extend(f, r).generations), f.ordered)
  {
    hide Tops, Top, AttachedTo, StatusAt, Contribute, Joins;
    var eps, n := Episodes(f.generations), |f.generations|;
    if n > 0 && Joins(f.generations[n - 1].episode, r) {
      LastTop(eps, f.ordered);
      ContributionStaysTop(eps[n - 1], r, f.ordered);
      TopsReplaced(eps, f.ordered, Contribute(eps[n - 1], r));
      assert Episodes(Extend(f, r).generations) == eps[..n - 1] + [Contribute(eps[n - 1], r)];
    } else {
      BeginIsTop(r, f.ordered);
      TopsReplaced(eps, f.ordered, Begin(r));
      assert Episodes(Extend(f, r).generations) == eps + [Begin(r)];
    }
  }

  lemma BeginIsTop(r: Record, ordered: seq<Record>)
    requires ordered != [] && ordered[|ordered| - 1] == r
    ensures Top(Begin(r), ordered)
  {
  }

  class FamilyObject {
    const id: bytes
    var events: map<bytes, Record>
    var evidence: map<bytes, Evidence>
    var ordered: seq<Record>
    var generations: seq<Generation>
    var active: bool
    var contextVersion: nat
    var maxEvent: Option<int>
    var watermark: Option<int>
    var finalized: Option<int>
    var advancedTo: Option<int>
    var lastActivity: Option<int>
    var pruned: nat

    ghost function Model(): Family
      reads this
    {
      Family(id, ordered, evidence, generations, active, contextVersion, maxEvent, watermark, finalized, advancedTo,
             lastActivity, pruned)
    }

    ghost predicate Consistent()
      reads this`events, this`ordered, this`evidence
    {
      && Sorted(ordered) && Distinct(ordered) && Holding(events, ordered)
      && (forall id :: id in evidence ==> evidence[id].record.id == id && id !in events)
    }

    ghost predicate Valid()
      reads this
    {
      Consistent() && Tops(Episodes(generations), ordered)
    }

    constructor (id: bytes)
      ensures this.id == id && Valid() && Model() == NewFamily(id)
    {
      this.id := id;
      events, evidence, ordered, generations := map[], map[], [], [];
      active, contextVersion := false, 0;
      maxEvent, watermark, finalized, advancedTo, lastActivity := None, None, None, None, None;
      pruned := 0;
    }

    method FinalizeThrough(t: int)
      requires Valid()
      modifies this`finalized
      ensures Valid() && Model() == old(Model()).(finalized := Later(old(finalized), t))
    {
      if finalized.None? || t > finalized.value { finalized := Some(t); }
    }

    method NoteRecord(r: Record)
      requires Valid()
      modifies this`maxEvent, this`watermark, this`finalized, this`lastActivity
      ensures Valid() && Model() == Note(old(Model()), r)
    {
      if maxEvent.None? || r.eventTime > maxEvent.value {
        maxEvent := Some(r.eventTime);
        watermark := Some(r.eventTime - LATENESS);
        FinalizeThrough(r.eventTime - LATENESS);
      }
      if lastActivity.None? || Activity(r) > lastActivity.value { lastActivity := Some(Activity(r)); }
    }

    method TakeAsEvidence(r: Record)
      requires Valid() && r.id !in events
      modifies this`evidence, this`generations
      ensures Valid() && Model() == TakeEvidence(old(Model()), r)
    {
      var target := GenerationForEvidence(generations, r.deployment, r.eventTime);
      var veryLate := watermark.Some? && r.eventTime < watermark.value - RETENTION;
      var e := Evidence(r, !veryLate && target.Some?, Before(r.eventTime, watermark));
      evidence := evidence[r.id := e];
      generations := AttachEvidence(generations, e);
      assert Episodes(generations) == Episodes(old(generations));
    }

    method Insert(r: Record) returns (last: bool)
      requires Valid() && r.id !in events && r.id !in evidence
      modifies this`events, this`ordered
      ensures Valid() && Model() == TakeRecord(old(Model()), r)
      ensures last == (Rank(old(ordered), r) == |old(ordered)|)
      ensures last ==> ordered != [] && ordered[|ordered| - 1] == r
    {
      FreshRecord(events, ordered, r);
      HoldingInserted(events, ordered, r);
      InsertKeepsOrder(ordered, r);
      InsertKeepsNewest(Episodes(generations), ordered, r);
      events := events[r.id := r];
      var index := SearchPosition(ordered, r);
      ordered := ordered[..index] + [r] + ordered[index..];
      last := index == |ordered| - 1;
    }

    method ExtendWith(r: Record)
      requires Valid() && ordered != [] && ordered[|ordered| - 1] == r
      modifies this`generations
      ensures Valid() && Model() == Extend(old(Model()), r)
    {
      hide Sorted, Distinct, Holding, Tops, Arrange, Refresh, Joins, Contribute, Begin;
      ghost var was := Model();
      var n := |generations|;
      if n == 0 || !Joins(generations[n - 1].episode, r) {
        generations := AttachAndNumber(Episodes(generations) + [Begin(r)], evidence, pruned, advancedTo);
      } else {
        LastTop(Episodes(generations), ordered);
        var g := AddContribution(generations[n - 1].episode, r);
        generations := RefreshStatuses(generations[..n - 1] + [generations[n - 1].(episode := g)], advancedTo);
      }
      ExtendKeepsTops(was, r);
    }

    method RebuildEpisodes()
      requires Consistent()
      modifies this`generations, this`pruned
      ensures Valid() && Model() == Rebuild(old(Model()))
    {
      var released: nat;
      HoldingKeys(events, ordered);
      generations, released := Reassemble(Episodes(generations), ordered, events, evidence, pruned, advancedTo);
      pruned := pruned + released;
    }

    method RequestInvestigation()
      requires Valid()
      modifies this`active, this`contextVersion
      ensures Valid() && Model() == Request(old(Model()))
    {
      if !active {
        var reached := ThresholdGeneration(generations, finalized);
        if reached.Some? { active := true; }
      }
      if active { contextVersion := pruned + |generations|; }
    }

    /** update, for the generation that holds a record. */
    method Update(id: bytes, duplicate: bool, requested: bool, contextUpdated: bool, late: bool, evidenceOnly: bool)
      returns (report: Report)
      ensures report ==
                ReportOf(Model(), Containing(generations, id), duplicate, requested, contextUpdated, late, evidenceOnly)
    {
      hide Containing;
      var i := GenerationContaining(generations, id);
      report := UpdateAt(i, duplicate, requested, contextUpdated, late, evidenceOnly);
    }

    method UpdateAt(i: Option<nat>, duplicate: bool, requested: bool, contextUpdated: bool, late: bool,
                    evidenceOnly: bool)
      returns (report: Report)
      ensures report == ReportOf(Model(), i, duplicate, requested, contextUpdated, late, evidenceOnly)
    {
      var detail :=
        if i.Some? && i.value < |generations| then Some(DetailOf(generations[i.value], watermark)) else None;
      report := Report(id, detail, pruned + |generations|, duplicate, requested, active, contextVersion, contextUpdated,
                       watermark,
                       late, evidenceOnly);
    }

    /** The contribution half of Observe, with what the caller is told of the investigation. */
    method TakeAsRecord(r: Record) returns (requested: bool, contextUpdated: bool)
      requires Valid() && r.id !in events && r.id !in evidence
      modifies this`events, this`ordered, this`generations, this`pruned, this`active, this`contextVersion
      ensures Valid() && Model() == Request(Place(old(Model()), r))
      ensures requested == (!old(active) && active)
      ensures contextUpdated == (old(active) && ContextMoved(old(Model()), Model()))
    {
      hide Sorted, Distinct, Holding, Tops, Topology, Satisfied, Extend, Rebuild, Rank;
      ghost var was := Model();
      var topology, version, running := Topology(generations), contextVersion, active;
      var last := Insert(r);
      if last { ExtendWith(r); } else { RebuildEpisodes(); }
      assert Model() == Place(was, r);
      PlaceKeepsActive(was, r);
      hide Place;
      RequestInvestigation();
      requested := !running && active;
      contextUpdated := !requested && active && (topology != Topology(generations) || version != contextVersion);
    }

    /** Observe's work on one family, and what it reports of it. */
    method ObserveRecord(r: Record) returns (report: Report)
      requires Valid() && r.id !in events && r.id !in evidence
      modifies this
      ensures Valid() && Model() == ObserveFamily(old(Model()), r)
      ensures report == Observation(old(Model()), r)
    {
      hide Sorted, Distinct, Holding, Tops, Place, Request, Containing, Topology, TakeEvidence;
      NoteRecord(r);
      label noted:
      var late := Before(r.eventTime, watermark);
      var asEvidence := Before(r.eventTime, finalized) ||
                        (advancedTo.Some? && advancedTo.value >= Activity(r) + QUIET);
      var requested, contextUpdated := false, false;
      if asEvidence {
        TakeAsEvidence(r);
      } else {
        requested, contextUpdated := TakeAsRecord(r);
      }
      report := Update(r.id, false, requested, contextUpdated, asEvidence && late, asEvidence);
    }

    method MoveFrontier(now: int)
      requires Valid()
      modifies this`advancedTo, this`finalized
      ensures Valid() && Model() == Deadline(old(Model()).(advancedTo := Later(old(advancedTo), now)), now)
    {
      if advancedTo.None? || now > advancedTo.value { advancedTo := Some(now); }
      if maxEvent.Some? {
        var frontier := now - LATENESS;
        if frontier > maxEvent.value + 1 { frontier := maxEvent.value + 1; }
        FinalizeThrough(frontier);
      }
    }

    method AdvanceTo(now: int) returns (requested: Option<nat>)
      requires Valid()
      modifies this
      ensures Valid() && Model() == AdvanceFamily(old(Model()), now)
      ensures requested == RequestedAt(old(Model()), Model())
    {
      hide Sorted, Distinct, Holding, Satisfied, Later, Deadline, StatusAt, FirstSatisfied;
      MoveFrontier(now);
      generations := RefreshStatuses(generations, advancedTo);
      assert Episodes(generations) == Episodes(old(generations));
      hide Refresh, Tops;
      requested := Activate();
    }

    /** The investigation Advance requests when a cluster has come to lie behind the frontier. */
    method Activate() returns (requested: Option<nat>)
      modifies this`active, this`contextVersion
      ensures requested == if old(active) then None else FirstSatisfied(generations, finalized)
      ensures active == (old(active) || requested.Some?)
      ensures contextVersion == if requested.Some? then pruned + |generations| else old(contextVersion)
    {
      hide FirstSatisfied, Satisfied;
      requested := None;
      if !active {
        requested := ThresholdGeneration(generations, finalized);
        if requested.Some? { active, contextVersion := true, pruned + |generations|; }
      }
    }

    /** The reports of one family's advance: the investigation it requests, then what went quiet. */
    method ReportAdvance(now: int) returns (reports: seq<Report>)
      requires Valid()
      modifies this
      ensures Valid() && Model() == AdvanceFamily(old(Model()), now)
      ensures reports == FamilyReports(old(Model()), now)
    {
      hide AdvanceFamily, Sorted, Distinct, Holding, Tops, FirstSatisfied;
      ghost var was := Model();
      var before := generations;
      var requested := AdvanceTo(now);
      AdvanceActive(was, now);
      reports := [];
      if requested.Some? {
        var x := UpdateAt(requested, false, true, false, false, false);
        reports := [x];
      }
      var quiet := ReportQuiet(was, before, requested);
      reports := reports + quiet;
    }

    method ReportQuiet(ghost was: Family, before: seq<Generation>, skip: Option<nat>) returns (reports: seq<Report>)
      requires before == was.generations && |before| == |generations|
      ensures reports == QuietReports(was, Model(), skip, |generations|)
    {
      reports := [];
      for n := 0 to |generations|
        invariant reports == QuietReports(was, Model(), skip, n)
      {
        if before[n].status.Active? && generations[n].status.Quiet? && skip != Some(n) {
          var x := UpdateAt(Some(n), false, false, false, false, false);
          reports := reports + [x];
        }
      }
    }

    /** prune and the rebuild it triggers; `forgotten` are the identities whose payload was released. */
    method CompactRecords(now: int, pinned: set<bytes>) returns (forgotten: set<bytes>)
      requires Valid()
      modifies this
      ensures Valid() && Model() == CompactFamily(old(Model()), now, pinned)
      ensures forgotten == Released(old(Model()), now, pinned)
    {
      hide Sorted, Distinct, Holding, Tops, Rebuild, Keep, Releasable, ReleasedIds, Released, PrunesNothing;
      var horizon := now - LATENESS;
      if watermark.Some? && watermark.value >= now - LATENESS { horizon := watermark.value; }
      horizon := horizon - RETENTION;
      var kept, gone := PruneOrdered(ordered, horizon, pinned);
      var keptEvidence, goneEvidence := PruneEvidence(evidence, horizon, pinned);
      ReleasedSplits(Model(), now, pinned, events);
      forgotten := gone + goneEvidence;
      if forgotten != {} {
        KeptConsistent(events, ordered, horizon, pinned);
        assert forall id :: id in keptEvidence ==> id in evidence && keptEvidence[id] == evidence[id];
        ordered, evidence := kept, keptEvidence;
        events := events - gone;
        RebuildEpisodes();
      }
    }

    /** What Advance does to one family before it decides whether to hold it. */
    method AdvanceAndCompact(now: int, pinned: set<bytes>) returns (reports: seq<Report>, forgotten: set<bytes>)
      requires Valid()
      modifies this
      ensures Valid() && Model() == CompactFamily(AdvanceFamily(old(Model()), now), now, pinned)
      ensures reports == FamilyReports(old(Model()), now)
      ensures forgotten == Released(AdvanceFamily(old(Model()), now), now, pinned)
    {
      hide AdvanceFamily, CompactFamily, Released, FamilyReports, Valid;
      reports := ReportAdvance(now);
      forgotten := CompactRecords(now, pinned);
    }
  }

  lemma FreshRecord(events: map<bytes, Record>, o: seq<Record>, x: Record)
    requires Holding(events, o) && Sorted(o) && Distinct(o) && x.id !in events
    ensures Fresh(o, x)
  {
    forall i | 0 <= i < |o| ensures o[i].id != x.id { assert o[i] in o; }
  }

  lemma ContributionStaysTop(g: Episode, r: Record, ordered: seq<Record>)
    requires ordered != [] && ordered[|ordered| - 1] == r && Top(g, ordered)
    ensures Top(Contribute(g, r), ordered)
  {
    hide WindowCount;
    var e := g.eligible + [r.eventTime];
    assert TimesAscend(e) && AtMost(e, r.eventTime);
  }

  lemma {:induction false} KeepIsSub(s: seq<Record>, horizon: int, pinned: set<bytes>)
    requires Sorted(s) && Distinct(s)
    ensures Sorted(Keep(s, horizon, pinned)) && Distinct(Keep(s, horizon, pinned))
    ensures forall r :: r in Keep(s, horizon, pinned) <==> r in s && !Releasable(r, horizon, pinned)
  {
    if s != [] {
      var n := |s| - 1;
      var k := Keep(s[..n], horizon, pinned);
      KeepIsSub(s[..n], horizon, pinned);
      forall i | 0 <= i < |k| ensures SortsBefore(k[i], s[n]) && k[i].id != s[n].id {
        assert k[i] in k && k[i] in s[..n];
        var j :| 0 <= j < n && s[j] == k[i];
      }
      hide Sorted, Distinct, SortsBefore;
      assert s == s[..n] + [s[n]];
      KeepOrdered(k, s[n]);
    }
  }

  lemma KeepOrdered(k: seq<Record>, r: Record)
    requires Sorted(k) && Distinct(k) && forall i :: 0 <= i < |k| ==> SortsBefore(k[i], r) && k[i].id != r.id
    ensures Sorted(k + [r]) && Distinct(k + [r])
  {
    hide SortsBefore;
  }

  lemma KeptConsistent(events: map<bytes, Record>, o: seq<Record>, horizon: int, pinned: set<bytes>)
    requires Sorted(o) && Distinct(o) && Holding(events, o)
    ensures Sorted(Keep(o, horizon, pinned)) && Distinct(Keep(o, horizon, pinned))
    ensures Holding(events - ReleasedIds(o, horizon, pinned), Keep(o, horizon, pinned))
  {
    KeepIsSub(o, horizon, pinned);
    IdsKept(o, horizon, pinned);
    hide Keep, Releasable, Sorted;
  }

  lemma SameRecord(o: seq<Record>, a: Record, b: Record)
    requires Distinct(o) && a in o && b in o && a.id == b.id
    ensures a == b
  {
  }

  lemma IdsKept(o: seq<Record>, horizon: int, pinned: set<bytes>)
    requires Sorted(o) && Distinct(o)
    ensures Ids(Keep(o, horizon, pinned)) == Ids(o) - ReleasedIds(o, horizon, pinned)
  {
    KeepIsSub(o, horizon, pinned);
    hide Keep, Releasable, Sorted, Distinct;
    var k, gone := Ids(Keep(o, horizon, pinned)), ReleasedIds(o, horizon, pinned);
    forall id | id in Ids(o) ensures id in k <==> id !in gone {
      var r :| r in o && r.id == id;
      forall x | x in o && x.id == id ensures x == r { SameRecord(o, x, r); }
      if !Releasable(r, horizon, pinned) { assert r in Keep(o, horizon, pinned); }
    }
  }

  lemma ReleasedDisjoint(o: seq<Record>, horizon: int, pinned: set<bytes>)
    ensures ReleasedIds(o, horizon, pinned) <= Ids(o)
  {
    hide Releasable;
  }

  /** What the two passes forget is what the model releases, and nothing forgotten means nothing pruned. */
  lemma ReleasedSplits(f: Family, now: int, pinned: set<bytes>, events: map<bytes, Record>)
    requires Sorted(f.ordered) && Distinct(f.ordered) && Holding(events, f.ordered)
    requires forall id :: id in f.evidence ==> f.evidence[id].record.id == id && id !in events
    ensures var h := Horizon(f, now);
            var forgotten :=
              ReleasedIds(f.ordered, h, pinned) + (f.evidence.Keys - KeepEvidence(f.evidence, h, pinned).Keys);
            Released(f, now, pinned) == forgotten && (PrunesNothing(f, now, pinned) <==> forgotten == {})
  {
    var h := Horizon(f, now);
    IdsKept(f.ordered, h, pinned);
    NothingReleased(f.ordered, h, pinned);
    hide Keep, Sorted, Distinct, Horizon, Releasable, ReleasedIds;
    EvidenceKept(f.evidence, h, pinned);
    ReleasedDisjoint(f.ordered, h, pinned);
    hide KeepEvidence, Ids;
  }

  lemma EvidenceKept(m: map<bytes, Evidence>, horizon: int, pinned: set<bytes>)
    ensures var k := KeepEvidence(m, horizon, pinned); k.Keys <= m.Keys && (m.Keys - k.Keys == {} <==> k == m)
  {
    var k := KeepEvidence(m, horizon, pinned);
    if m.Keys - k.Keys == {} {
      forall id | id in m ensures id in k { assert id !in m.Keys - k.Keys; }
    }
  }

  lemma {:induction false} NothingReleased(o: seq<Record>, horizon: int, pinned: set<bytes>)
    ensures Keep(o, horizon, pinned) == o <==> ReleasedIds(o, horizon, pinned) == {}
  {
    if o != [] {
      var n := |o| - 1;
      KeepShrinks(o[..n], horizon, pinned);
      NothingReleased(o[..n], horizon, pinned);
      ReleasedIdsAt(o, horizon, pinned, n);
      assert o[..n + 1] == o;
      hide Releasable, ReleasedIds;
      assert o == o[..n] + [o[n]];
      if Keep(o, horizon, pinned) == o { assert Keep(o[..n], horizon, pinned) == o[..n]; }
    } else {
      assert ReleasedIds(o, horizon, pinned) == {};
    }
  }

  lemma {:induction false} KeepShrinks(o: seq<Record>, horizon: int, pinned: set<bytes>)
    ensures |Keep(o, horizon, pinned)| <= |o|
  {
    if o != [] { KeepShrinks(o[..|o| - 1], horizon, pinned); }
  }

  // ---------------------------------------------------------------- the engine

  lemma {:induction false} FindIsHeld(events: map<bytes, Record>, s: seq<Record>, id: bytes)
    requires Holding(events, s)
    ensures Find(s, id) == if id in events then Some(events[id]) else None
  {
    var r := Find(s, id);
    if r.Some? { assert r.value.id in Ids(s); }
  }

  /** A record the index does not know is held by no family. */
  lemma NotHeld(f: FamilyObject, seen: map<bytes, Location>, r: Record)
    requires f.Valid() && Known(seen, f.id, f.Model()) && r.id !in seen
    ensures r.id !in f.events && r.id !in f.evidence && Fresh(f.ordered, r)
  {
    hide Sorted, Distinct, Tops;
    FreshRecord(f.events, f.ordered, r);
  }

  lemma ReportIsLocation(f: Family, r: Record)
    ensures LocationOf(f, r) == Location(f.id, Observation(f, r).late, Observation(f, r).evidenceOnly)
  {
    hide ObserveFamily, Containing, ContextMoved;
  }

  lemma EmptyFamily(f: FamilyObject)
    requires f.Valid()
    ensures f.events == map[] <==> f.ordered == []
  {
    hide Sorted, Distinct, Tops;
    if f.ordered != [] { assert f.ordered[0] in f.ordered; }
  }

  class EngineObject {
    var families: map<bytes, FamilyObject>
    var seen: map<bytes, Location>
    var pinned: set<bytes>

    ghost predicate Valid()
      reads this, families.Values
    {
      && (forall id :: id in families ==>
            families[id].id == id && families[id].Valid() && Known(seen, id, families[id].Model()))
      && (forall r :: r in seen ==> seen[r].incident in families)
    }

    ghost function Model(): Engine
      reads this, families.Values
    {
      Engine(map id | id in families :: families[id].Model(), seen, pinned)
    }

    constructor ()
      ensures Valid() && Model() == Engine(map[], map[], {})
    {
      families, seen, pinned := map[], map[], {};
    }

    method Pin(ids: set<bytes>)
      requires Valid()
      modifies this`pinned
      ensures Valid() && Model() == old(Model()).(pinned := ids)
    {
      pinned := ids;
    }

    /** The family of an incident, created when it is not held. */
    method FamilyFor(id: bytes) returns (f: FamilyObject)
      requires Valid()
      modifies this`families
      ensures Valid() && families == old(families)[id := f]
      ensures if id in old(families) then f == old(families)[id] else fresh(f)
      ensures f.id == id && f.Model() == FamilyOf(old(Model()), id)
    {
      hide Known, FamilyObject.Valid, NewFamily;
      if id in families { f := families[id]; } else {
        f := new FamilyObject(id);
        NewIsKnown(seen, id);
        families := families[id := f];
      }
    }

    method ObserveIn(f: FamilyObject, r: Record) returns (report: Report)
      requires Valid() && r.id !in seen && f.id in families && families[f.id] == f
      modifies this`seen, f
      ensures Valid()
      ensures f.Model() == ObserveFamily(old(f.Model()), r)
      ensures seen == old(seen)[r.id := LocationOf(old(f.Model()), r)]
      ensures report == Observation(old(f.Model()), r)
    {
      hide ObserveFamily, Known, FamilyObject.Valid, Observation, LocationOf;
      ghost var was := f.Model();
      ReportIsLocation(was, r);
      NotHeld(f, seen, r);
      report := f.ObserveRecord(r);
      seen := seen[r.id := Location(f.id, report.late, report.evidenceOnly)];
      KnownAfterObserve(old(seen), f.id, was, r, seen[r.id]);
      forall o | o in families && o != f.id ensures Known(seen, o, families[o].Model()) {
        KnownElsewhere(old(seen), r.id, seen[r.id], o, families[o].Model());
      }
    }

    /**
     * Observe: a refused fingerprint and a known identity change nothing, and a known identity always has its family.
     */
    method Observe(r: Record) returns (report: Option<Report>)
      requires Valid()
      modifies this, families.Values
      ensures Valid() && Model() == IncidentModel.Observe(old(Model()), r)
      ensures report == ObserveReport(old(Model()), r) && (report.None? <==> r.incident.None?)
    {
      hide ObserveFamily, EngineObject.Valid, LocationOf, FamilyOf, IncidentModel.Observe, Observation, Containing,
           ReportOf;
      OwnIds(this);
      report := None;
      ghost var was := Model();
      if r.incident.None? || r.id in seen { ObserveIgnored(was, r); }
      if r.incident.None? { return; }
      if r.id in seen {
        var f := families[seen[r.id].incident];
        var x := f.Update(r.id, true, false, false, seen[r.id].late, seen[r.id].evidence);
        return Some(x);
      }
      var f := FamilyFor(r.incident.value);
      var x := ObserveIn(f, r);
      report := Some(x);
      hide FamilyObject.Model;
      ObserveTaken(was, Model(), r);
    }

    /** Advance's work on one family: its frontier, its statuses, and then its compaction. */
    method AdvanceOne(id: bytes, now: int) returns (reports: seq<Report>)
      requires Valid() && id in families
      modifies this`families, this`seen, families[id]
      ensures Valid()
      ensures var g := AdvanceFamily(old(families[id].Model()), now);
              && old(families[id]).Model() == CompactFamily(g, now, pinned)
              && families == (if Survives(CompactFamily(g, now, pinned), now) then old(families) else old(families) - {id})
              && seen == old(seen) - Released(g, now, pinned)
      ensures reports == FamilyReports(old(families[id].Model()), now)
    {
      hide AdvanceFamily, CompactFamily, Known, FamilyObject.Valid, Released, Sorted, Distinct, Tops, Holding,
           FamilyReports;
      var f := families[id];
      ghost var was := f.Model();
      var forgotten: set<bytes>;
      reports, forgotten := f.AdvanceAndCompact(now, pinned);
      seen := seen - forgotten;
      KnownAfterCompact(old(seen), id, was, now, pinned);
      forall o | o in families && o != id ensures Known(seen, o, families[o].Model()) {
        OthersKnown(old(seen), id, was, o, families[o].Model(), now, pinned);
      }
      DropIfIdle(id, now);
    }

    /** An emptied family goes once its investigation no longer suppresses a relaunch; no identity points to it then. */
    method DropIfIdle(id: bytes, now: int)
      requires Valid() && id in families
      modifies this`families
      ensures Valid()
      ensures families == if Survives(old(families[id]).Model(), now) then old(families) else old(families) - {id}
    {
      hide Known, FamilyObject.Valid, Holding;
      var f := families[id];
      EmptyFamily(f);
      if f.events == map[] && f.evidence == map[] &&
         !(f.active && f.lastActivity.Some? && now < f.lastActivity.value + REINVESTIGATE) {
        EmptyKnowsNone(seen, id, f.Model());
        families := families - {id};
      }
    }

    /** How far an Advance that began at `was` has come: the families in `todo` are untouched. */
    ghost predicate Progress(was: Engine, objects: map<bytes, FamilyObject>, todo: set<bytes>, now: int)
      reads this, objects.Values
    {
      && pinned == was.pinned && todo <= families.Keys && families.Keys <= objects.Keys
      && objects.Keys == was.families.Keys
      && (forall id :: id in families ==> families[id] == objects[id])
      && (forall id :: id in objects ==> objects[id].id == id)
      && (forall id :: id in objects ==>
           objects[id].Model() == (if id in todo then was.families[id] else After(was, id, now)) &&
           (id in families <==> id in todo || Survives(After(was, id, now), now)))
      && Remembered(seen, was, objects.Keys - todo, now)
    }

    method AdvanceNext(ghost was: Engine, ghost objects: map<bytes, FamilyObject>, ghost todo: set<bytes>, id: bytes,
                       now: int)
      returns (reports: seq<Report>)
      requires Valid() && Progress(was, objects, todo, now) && id in todo
      modifies this`families, this`seen, objects.Values
      ensures Valid() && Progress(was, objects, todo - {id}, now)
      ensures id in was.families && reports == FamilyReports(was.families[id], now)
    {
      hide FamilyReports, EngineObject.Valid, FamilyObject.Model, After, Survives, Remembered, ForgottenBy,
           CompactFamily, AdvanceFamily, Released;
      assert id in families && families[id] == objects[id];
      AfterIs(was, id, now);
      RememberedStep(seen, was, objects.Keys - todo, id, now);
      assert objects.Keys - (todo - {id}) == objects.Keys - todo + {id};
      reports := AdvanceOne(id, now);
    }

    method AdvanceListed(ghost was: Engine, ghost objects: map<bytes, FamilyObject>, ids: seq<bytes>, now: int)
      returns (reports: seq<Report>)
      requires Valid() && Ascending(ids) && Progress(was, objects, (set x | x in ids), now)
      modifies this`families, this`seen, objects.Values
      ensures Valid() && Progress(was, objects, {}, now)
      ensures reports == AdvanceReports(was, ids, now)
    {
      hide EngineObject.Valid, Progress, FamilyReports, Ascending;
      reports := [];
      ghost var todo := set x | x in ids;
      for i := 0 to |ids|
        invariant Valid() && Progress(was, objects, todo, now)
        invariant forall x :: x in todo <==> x in ids[i..]
        invariant reports == AdvanceReports(was, ids[..i], now)
      {
        RestOfListing(ids, i);
        var more := AdvanceNext(was, objects, todo, ids[i], now);
        todo := todo - {ids[i]};
        reports := reports + more;
      }
      assert todo == {} && ids[..|ids|] == ids;
    }

    method SortedNames() returns (ids: seq<bytes>)
      ensures ids == Listing(families.Keys) && Ascending(ids) && (set x | x in ids) == families.Keys
    {
      ids := SortStrings(families.Keys);
      AscendingIsUnique(ids, Listing(families.Keys));
    }

    /** Advance: every family in turn, in the order of their names. */
    method Advance(now: int) returns (reports: seq<Report>)
      requires Valid()
      modifies this, families.Values
      ensures Valid() && Model() == IncidentModel.Advance(old(Model()), now)
      ensures reports == AdvanceReports(old(Model()), Listing(old(families.Keys)), now)
    {
      hide EngineObject.Valid, EngineObject.Model, FamilyObject.Model, IncidentModel.Advance, EngineObject.Progress,
           AdvanceReports, Ascending;
      ghost var was, objects := Model(), families;
      var ids := SortedNames();
      ProgressStarts(this, now);
      reports := AdvanceListed(was, objects, ids, now);
      ProgressDone(this, was, objects, now);
    }

    /** PersistenceDecision. */
    method DecisionFor(id: bytes) returns (d: Option<Decision>)
      requires Valid()
      ensures d == PersistenceDecision(Model(), id)
    {
      hide Known, Holding, Sorted, Distinct, Tops, Top, Containing;
      if id !in seen || seen[id].incident !in families { return None; }
      var f := families[seen[id].incident];
      FindIsHeld(f.events, f.ordered, id);
      hide Find;
      if seen[id].evidence && !(id in f.evidence && f.evidence[id].attach) { return None; }
      if !seen[id].evidence && id !in f.events { return None; }
      var held := if seen[id].evidence then f.evidence[id].record else f.events[id];
      if !Before(held.eventTime, f.finalized) { return None; }
      var i := GenerationContaining(f.generations, id);
      if i.None? || !Before(f.generations[i.value].episode.first, f.finalized) { return None; }
      var g := f.generations[i.value].episode;
      return Some(Decision(f.id, g.deployment, g.first, seen[id].evidence, seen[id].late));
    }
  }

  /** What Advance makes of one family, whether or not it survives. */
  ghost function After(was: Engine, id: bytes, now: int): Family
    requires id in was.families
  {
    CompactFamily(AdvanceFamily(was.families[id], now), now, was.pinned)
  }

  ghost function ForgottenBy(was: Engine, id: bytes, now: int): set<bytes>
    requires id in was.families
  {
    Released(AdvanceFamily(was.families[id], now), now, was.pinned)
  }

  lemma AfterIs(was: Engine, id: bytes, now: int)
    requires id in was.families
    ensures After(was, id, now) == CompactFamily(AdvanceFamily(was.families[id], now), now, was.pinned)
    ensures ForgottenBy(was, id, now) == Released(AdvanceFamily(was.families[id], now), now, was.pinned)
  {
  }

  ghost predicate Forgotten(was: Engine, done: set<bytes>, r: bytes, now: int) {
    exists id :: id in done && id in was.families && r in ForgottenBy(was, id, now)
  }

  lemma NoneForgotten(was: Engine, done: set<bytes>, now: int)
    requires done == {}
    ensures forall r :: !Forgotten(was, done, r, now)
  {
  }

  /** The index is what it was, less what the families in `done` forgot. */
  ghost predicate Remembered(seen: map<bytes, Location>, was: Engine, done: set<bytes>, now: int) {
    && (forall r :: r in seen <==> r in was.seen && !Forgotten(was, done, r, now))
    && (forall r :: r in seen ==> seen[r] == was.seen[r])
  }

  lemma RememberedStep(seen: map<bytes, Location>, was: Engine, done: set<bytes>, id: bytes, now: int)
    requires id in was.families && Remembered(seen, was, done, now)
    ensures Remembered(seen - ForgottenBy(was, id, now), was, done + {id}, now)
  {
    hide ForgottenBy, Forgotten;
    ForgottenStep(was, done, id, now);
  }

  lemma ForgottenStep(was: Engine, done: set<bytes>, id: bytes, now: int)
    requires id in was.families
    ensures forall r :: Forgotten(was, done + {id}, r, now) <==>
              Forgotten(was, done, r, now) || r in ForgottenBy(was, id, now)
  {
    hide ForgottenBy;
  }

  lemma AllAdvanced(was: Engine, e: Engine, now: int)
    requires e.pinned == was.pinned && e.families.Keys <= was.families.Keys
    requires forall id :: id in was.families ==> (id in e.families <==> Survives(After(was, id, now), now))
    requires forall id :: id in e.families ==> e.families[id] == After(was, id, now)
    requires forall r :: r in e.seen <==> r in was.seen && !Forgotten(was, was.families.Keys, r, now)
    requires forall r :: r in e.seen ==> e.seen[r] == was.seen[r]
    ensures e == IncidentModel.Advance(was, now)
  {
    hide AdvanceFamily, CompactFamily, Survives, Released;
    var a := IncidentModel.Advance(was, now);
    assert e.families == a.families;
    assert e.seen == a.seen;
  }

  lemma ProgressStarts(o: EngineObject, now: int)
    requires o.Valid()
    ensures o.Progress(o.Model(), o.families, o.families.Keys, now)
  {
    OwnIds(o);
    NoneForgotten(o.Model(), o.families.Keys - o.families.Keys, now);
    hide EngineObject.Valid, FamilyObject.Model, After, Forgotten, Survives;
  }

  lemma ProgressDone(o: EngineObject, was: Engine, objects: map<bytes, FamilyObject>, now: int)
    requires o.Progress(was, objects, {}, now)
    ensures o.Model() == IncidentModel.Advance(was, now)
  {
    hide FamilyObject.Model, After, Forgotten, Survives, IncidentModel.Advance;
    assert objects.Keys - {} == was.families.Keys;
    AllAdvanced(was, o.Model(), now);
  }

  lemma RestOfListing(ids: seq<bytes>, i: nat)
    requires Ascending(ids) && i < |ids|
    ensures ids[i] in ids[i..] && ids[..i + 1][..i] == ids[..i]
    ensures forall x :: x in ids[i + 1..] <==> x in ids[i..] && x != ids[i]
  {
    assert Ascending(ids[i..]);
    hide Less;
    WithoutFirsts(ids[i..]);
    assert ids[i..][1..] == ids[i + 1..];
  }

  lemma WithoutFirsts(s: seq<bytes>)
    requires Ascending(s) && s != []
    ensures forall x :: x in s[1..] <==> x in s && x != s[0]
  {
    hide Less;
    forall x ensures x in s[1..] <==> x in s && x != s[0] { WithoutFirst(s, x); }
  }

  lemma OwnIds(e: EngineObject)
    requires e.Valid()
    ensures forall id :: id in e.families ==> e.families[id].id == id
    ensures forall r :: r in e.seen ==> e.seen[r].incident in e.families
  {
    hide FamilyObject.Valid, Known;
  }

  lemma ObserveIgnored(e: Engine, r: Record)
    requires r.incident.None? || r.id in e.seen
    ensures IncidentModel.Observe(e, r) == e
  {
  }

  lemma ObserveTaken(was: Engine, e: Engine, r: Record)
    requires r.incident.Some? && r.id !in was.seen && e.pinned == was.pinned
    requires var id := r.incident.value;
             && e.families.Keys == was.families.Keys + {id}
             && e.families[id] == ObserveFamily(FamilyOf(was, id), r)
             && (forall o :: o in was.families && o != id ==> e.families[o] == was.families[o])
             && e.seen == was.seen[r.id := LocationOf(FamilyOf(was, id), r)]
    ensures e == IncidentModel.Observe(was, r)
  {
    hide ObserveFamily, LocationOf, FamilyOf;
    assert e.families == was.families[r.incident.value := e.families[r.incident.value]];
  }
}
