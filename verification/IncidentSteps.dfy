/** The engine's loops, each proved to compute what the model says. */
module IncidentSteps {
  import opened Basics
  import opened IncidentModel
  import opened IncidentFold
  import opened IncidentThreshold
  import opened IncidentRuns

  // ---------------------------------------------------------------- insertion

  lemma RankIs(s: seq<Record>, r: Record, index: nat)
    requires Sorted(s) && index <= |s|
    requires forall i :: 0 <= i < index ==> SortsBefore(s[i], r)
    requires forall i :: index <= i < |s| ==> !SortsBefore(s[i], r)
    ensures Rank(s, r) == index
  {
    RankSplits(s, r);
    hide Rank, SortsBefore;
  }

  /** The binary search of insert. */
  method SearchPosition(ordered: seq<Record>, r: Record) returns (index: nat)
    requires Sorted(ordered)
    ensures index == Rank(ordered, r)
  {
    var lo, hi := 0, |ordered|;
    while lo < hi
      invariant 0 <= lo <= hi <= |ordered|
      invariant forall i :: 0 <= i < lo ==> SortsBefore(ordered[i], r)
      invariant forall i :: hi <= i < |ordered| ==> !SortsBefore(ordered[i], r)
    {
      var mid := (lo + hi) / 2;
      if SortsBefore(ordered[mid], r) {
        forall i | 0 <= i < mid ensures SortsBefore(ordered[i], r) { OrderTransitive(ordered[i], ordered[mid], r); }
        lo := mid + 1;
      } else {
        forall i | mid < i < |ordered| ensures !SortsBefore(ordered[i], r) { NotBefore(ordered[mid], ordered[i], r); }
        hi := mid;
      }
    }
    index := lo;
    RankIs(ordered, r, index);
  }

  lemma NotBefore(a: Record, b: Record, r: Record)
    requires SortsBefore(a, b) && !SortsBefore(a, r)
    ensures !SortsBefore(b, r)
  {
    if SortsBefore(b, r) { OrderTransitive(a, b, r); }
  }

  // ---------------------------------------------------------------- contributions

  ghost predicate Open(g: Episode, t: int) {
    TimesAscend(g.eligible) && AtMost(g.eligible, t)
  }

  lemma FullWindow(eligible: seq<int>, t: int, first: nat)
    requires TimesAscend(eligible) && AtMost(eligible, t) && first <= |eligible|
    requires forall i :: 0 <= i < first ==> eligible[i] <= t - WINDOW
    requires forall i :: first <= i < |eligible| ==> eligible[i] > t - WINDOW
    ensures WindowCount(eligible, t) == |eligible| - first
  {
    WindowCountOfRange(eligible, t, first, |eligible|);
  }

  /** addContribution: the threshold is answered by one binary search over the eligible times. */
  method AddContribution(g: Episode, r: Record) returns (h: Episode)
    requires Open(g, r.eventTime)
    ensures h == Contribute(g, r)
  {
    var eligible, satisfiedAt := g.eligible, g.satisfiedAt;
    if r.eligible {
      eligible := eligible + [r.eventTime];
      if satisfiedAt.None? {
        var first := SearchAfter(eligible, r.eventTime - WINDOW);
        FullWindow(eligible, r.eventTime, first);
        if |eligible| - first >= THRESHOLD { satisfiedAt := Some(r.eventTime); }
      }
    }
    h := g.(records := g.records[r.id := r], times := g.times + [r.eventTime], eligible := eligible,
            satisfiedAt := satisfiedAt);
    if r.eventTime < h.first { h := h.(first := r.eventTime); }
    if r.eventTime > h.latest { h := h.(latest := r.eventTime); }
    if Activity(r) > h.lastActivity { h := h.(lastActivity := Activity(r)); }
  }

  lemma {:induction false} FoldOpen(s: seq<Record>, t: int)
    requires Sorted(s) && forall k :: 0 <= k < |s| ==> s[k].eventTime <= t
    ensures forall i :: 0 <= i < |Fold(s)| ==> Open(Fold(s)[i], t)
  {
    if s != [] {
      var n := |s| - 1;
      forall k | 0 <= k < n ensures s[k].eventTime <= s[n].eventTime { assert SortsBefore(s[k], s[n]); }
      FoldOpen(s[..n], s[n].eventTime);
      hide Fold;
    }
  }

  lemma OpenUntil(s: seq<Record>, n: nat)
    requires Sorted(s) && n < |s|
    ensures Sorted(s[..n]) && forall i :: 0 <= i < |Fold(s[..n])| ==> Open(Fold(s[..n])[i], s[n].eventTime)
  {
    forall k | 0 <= k < n ensures s[k].eventTime <= s[n].eventTime { assert SortsBefore(s[k], s[n]); }
    FoldOpen(s[..n], s[n].eventTime);
  }

  /** The loop of foldEpisodes. */
  method FoldEpisodes(ordered: seq<Record>) returns (eps: seq<Episode>)
    requires Sorted(ordered)
    ensures eps == Fold(ordered)
  {
    eps := [];
    for n := 0 to |ordered|
      invariant eps == Fold(ordered[..n])
    {
      var r := ordered[n];
      OpenUntil(ordered, n);
      FoldAt(ordered, n);
      if eps == [] || !Joins(eps[|eps| - 1], r) {
        eps := eps + [Begin(r)];
      } else {
        var g := AddContribution(eps[|eps| - 1], r);
        eps := eps[..|eps| - 1] + [g];
      }
    }
    assert ordered[..|ordered|] == ordered;
  }

  // ---------------------------------------------------------------- adoption

  lemma AssignedAt(prior: seq<Episode>, n: nat, id: bytes)
    requires n < |prior|
    ensures Assigned(prior[..n + 1], id) == if id in prior[n].records then Some(n) else Assigned(prior[..n], id)
  {
    assert prior[..n + 1][..n] == prior[..n];
  }

  /** The identity map of adoptAssignedIdentities. */
  method AssignRecords(prior: seq<Episode>) returns (byRecord: map<bytes, nat>)
    ensures forall id :: Assigned(prior, id) == if id in byRecord then Some(byRecord[id]) else None
  {
    byRecord := map[];
    for n := 0 to |prior|
      invariant forall id :: Assigned(prior[..n], id) == if id in byRecord then Some(byRecord[id]) else None
    {
      forall id { AssignedAt(prior, n, id); }
      byRecord := byRecord + map id | id in prior[n].records :: n;
    }
    assert prior[..|prior|] == prior;
  }

  /** The least assignment at or after the cursor that any record of the episode held, in any iteration order. */
  method LeastAssignment(prior: seq<Episode>, byRecord: map<bytes, nat>, g: Episode, cursor: nat)
    returns (m: Option<nat>)
    requires forall id :: Assigned(prior, id) == if id in byRecord then Some(byRecord[id]) else None
    ensures m == Match(prior, g, cursor)
  {
    m := None;
    var todo := g.records.Keys;
    while todo != {}
      invariant todo <= g.records.Keys
      invariant m.Some? ==>
                  m.value >= cursor && exists id :: id in g.records && id in byRecord && byRecord[id] == m.value
      invariant forall id :: id in g.records && id !in todo && id in byRecord && byRecord[id] >= cursor ==>
                  m.Some? && m.value <= byRecord[id]
      decreases |todo|
    {
      var id :| id in todo;
      todo := todo - {id};
      if id in byRecord && byRecord[id] >= cursor && (m.None? || byRecord[id] < m.value) { m := Some(byRecord[id]); }
    }
    LeastIsMatch(prior, byRecord, g, cursor, m);
  }

  lemma LeastIsMatch(prior: seq<Episode>, byRecord: map<bytes, nat>, g: Episode, cursor: nat, m: Option<nat>)
    requires forall id :: Assigned(prior, id) == if id in byRecord then Some(byRecord[id]) else None
    requires m.Some? ==> m.value >= cursor && exists id :: id in g.records && id in byRecord && byRecord[id] == m.value
    requires forall id :: id in g.records && id in byRecord && byRecord[id] >= cursor ==>
               m.Some? && m.value <= byRecord[id]
    ensures m == Match(prior, g, cursor)
  {
    hide Assigned, Match;
    assert Matches(prior, g, cursor, m);
    assert Matches(prior, g, cursor, Match(prior, g, cursor));
  }

  method RetainsAny(p: Episode, events: map<bytes, Record>) returns (b: bool)
    ensures b == RetainsAnyOf(p, events.Keys)
  {
    var todo := p.records.Keys;
    while todo != {}
      invariant todo <= p.records.Keys
      invariant forall id :: id in p.records && id !in todo ==> id !in events
      decreases |todo|
    {
      var id :| id in todo;
      if id in events { return true; }
      todo := todo - {id};
    }
    return false;
  }

  lemma ShellsAt(prior: seq<Episode>, adopted: set<nat>, held: set<bytes>, n: nat)
    requires n < |prior|
    ensures Shells(prior[..n + 1], adopted, held) ==
            Shells(prior[..n], adopted, held) +
            if n in adopted || RetainsAnyOf(prior[n], held) then [] else [ShellOf(prior[n])]
  {
    assert prior[..n + 1][..n] == prior[..n];
  }

  /** adoptAssignedIdentities. */
  method AdoptAssignedIdentities(prior: seq<Episode>, folded: seq<Episode>, events: map<bytes, Record>)
    returns (episodes: seq<Episode>, shells: seq<Episode>)
    ensures episodes == AdoptAll(prior, folded).episodes
    ensures shells == Shells(prior, AdoptAll(prior, folded).adopted, events.Keys)
  {
    var byRecord := AssignRecords(prior);
    var adopted: set<nat>, cursor: nat := {}, 0;
    episodes := [];
    for n := 0 to |folded|
      invariant Adoption(episodes, adopted, cursor) == AdoptAll(prior, folded[..n])
    {
      AdoptAt(prior, folded, n);
      var m := LeastAssignment(prior, byRecord, folded[n], cursor);
      if m.Some? {
        episodes := episodes + [Adopt(folded[n], prior[m.value])];
        adopted, cursor := adopted + {m.value}, m.value + 1;
      } else {
        episodes := episodes + [folded[n]];
      }
    }
    assert folded[..|folded|] == folded;
    shells := [];
    for n := 0 to |prior|
      invariant shells == Shells(prior[..n], adopted, events.Keys)
    {
      ShellsAt(prior, adopted, events.Keys, n);
      var retained := RetainsAny(prior[n], events);
      if !(n in adopted || retained) { shells := shells + [ShellOf(prior[n])]; }
    }
    assert prior[..|prior|] == prior;
  }

  // ---------------------------------------------------------------- evidence, statuses, threshold

  ghost predicate FoundFrom(eps: seq<Episode>, deployment: bytes, t: int, i: nat, earliest: Option<nat>)
    requires i <= |eps|
  {
    EvidenceTarget(eps, deployment, t) ==
    var earlier := EvidenceTarget(eps[..i], deployment, t);
    if earlier.Some? then earlier else earliest
  }

  /** generationForEvidence: the scan from the newest episode back. */
  method GenerationForEvidence(gens: seq<Generation>, deployment: bytes, t: int) returns (target: Option<nat>)
    ensures target == EvidenceTarget(Episodes(gens), deployment, t)
  {
    var i := |gens|;
    target := None;
    ghost var eps := Episodes(gens);
    assert eps[..|eps|] == eps;
    while i > 0
      invariant 0 <= i <= |gens|
      invariant FoundFrom(eps, deployment, t, i, target)
    {
      assert eps[..i][..i - 1] == eps[..i - 1];
      i := i - 1;
      if gens[i].episode.deployment == deployment {
        target := Some(i);
        if t >= gens[i].episode.first { return; }
      }
    }
  }

  method AttachEvidence(gens: seq<Generation>, e: Evidence) returns (attached: seq<Generation>)
    ensures attached == AttachOne(gens, e)
  {
    attached := gens;
    if e.attach {
      var target := GenerationForEvidence(gens, e.record.deployment, e.record.eventTime);
      if target.Some? {
        var g := gens[target.value];
        attached := gens[target.value := g.(evidence := g.evidence[e.record.id := e.record])];
      }
    }
  }

  /** attachRetainedEvidence, in any iteration order, with the ordinals and statuses rebuild assigns. */
  method AttachAndNumber(eps: seq<Episode>, evidence: map<bytes, Evidence>, pruned: nat, advancedTo: Option<int>)
    returns (gens: seq<Generation>)
    requires forall id :: id in evidence ==> evidence[id].record.id == id
    ensures gens == Arrange(eps, evidence, pruned, advancedTo)
  {
    gens := Arrange(eps, map[], pruned, advancedTo);
    var todo := evidence.Keys;
    assert evidence - todo == map[];
    while todo != {}
      invariant todo <= evidence.Keys
      invariant gens == Arrange(eps, evidence - todo, pruned, advancedTo)
      decreases |todo|
    {
      hide Arrange, AttachOne;
      var id :| id in todo;
      AttachNew(eps, evidence - todo, pruned, advancedTo, id, evidence[id]);
      assert evidence - (todo - {id}) == (evidence - todo)[id := evidence[id]];
      gens := AttachEvidence(gens, evidence[id]);
      todo := todo - {id};
    }
    assert evidence - {} == evidence;
  }

  method ReleaseLeading(gens: seq<Generation>) returns (released: nat)
    ensures released == LeadingEmpty(gens)
  {
    released := 0;
    while released < |gens|
      invariant 0 <= released <= |gens|
      invariant LeadingEmpty(gens) == released + LeadingEmpty(gens[released..])
    {
      if |gens[released].episode.records| != 0 || |gens[released].evidence| != 0 { return; }
      assert gens[released..][1..] == gens[released + 1..];
      released := released + 1;
    }
  }

  method RefreshStatuses(gens: seq<Generation>, advancedTo: Option<int>) returns (updated: seq<Generation>)
    ensures updated == Refresh(gens, advancedTo)
  {
    updated := gens;
    for i := 0 to |gens|
      invariant |updated| == |gens|
      invariant forall k :: 0 <= k < |gens| ==> updated[k] == if k < i then Refresh(gens, advancedTo)[k] else gens[k]
    {
      var status := Active;
      if i < |gens| - 1 || (advancedTo.Some? && advancedTo.value >= gens[i].episode.lastActivity + QUIET) {
        status := Quiet;
      }
      updated := updated[i := updated[i].(status := status)];
    }
  }

  /** thresholdGeneration. */
  method ThresholdGeneration(gens: seq<Generation>, finalized: Option<int>) returns (at: Option<nat>)
    ensures at == FirstSatisfied(gens, finalized)
  {
    hide FirstSatisfied;
    for i := 0 to |gens|
      invariant forall k :: 0 <= k < i ==> !Reached(gens[k], finalized)
    {
      if Reached(gens[i], finalized) { return Some(i); }
    }
    return None;
  }

  /** generationContaining. */
  method GenerationContaining(gens: seq<Generation>, id: bytes) returns (at: Option<nat>)
    ensures at == Containing(gens, id)
  {
    for i := 0 to |gens|
      invariant forall k :: 0 <= k < i ==> id !in gens[k].episode.records && id !in gens[k].evidence
    {
      if id in gens[i].episode.records || id in gens[i].evidence { return Some(i); }
    }
    return None;
  }

  // ---------------------------------------------------------------- pruning

  lemma KeepAt(s: seq<Record>, horizon: int, pinned: set<bytes>, n: nat)
    requires n < |s|
    ensures Keep(s[..n + 1], horizon, pinned) ==
            Keep(s[..n], horizon, pinned) + if Releasable(s[n], horizon, pinned) then [] else [s[n]]
  {
    assert s[..n + 1][..n] == s[..n];
  }

  ghost function ReleasedIds(s: seq<Record>, horizon: int, pinned: set<bytes>): set<bytes> {
    set r | r in s && Releasable(r, horizon, pinned) :: r.id
  }

  lemma ReleasedIdsAt(s: seq<Record>, horizon: int, pinned: set<bytes>, n: nat)
    requires n < |s|
    ensures ReleasedIds(s[..n + 1], horizon, pinned) ==
            ReleasedIds(s[..n], horizon, pinned) + if Releasable(s[n], horizon, pinned) then {s[n].id} else {}
  {
    assert s[..n + 1] == s[..n] + [s[n]];
  }

  /** prune's pass over the order. Records behind the horizon are a prefix of it. */
  method PruneOrdered(ordered: seq<Record>, horizon: int, pinned: set<bytes>)
    returns (kept: seq<Record>, forgotten: set<bytes>)
    requires Sorted(ordered)
    ensures kept == Keep(ordered, horizon, pinned) && forgotten == ReleasedIds(ordered, horizon, pinned)
  {
    var cut := SearchHorizon(ordered, horizon);
    kept, forgotten := [], {};
    for n := 0 to |ordered|
      invariant kept == Keep(ordered[..n], horizon, pinned)
      invariant forgotten == ReleasedIds(ordered[..n], horizon, pinned)
    {
      KeepAt(ordered, horizon, pinned, n);
      ReleasedIdsAt(ordered, horizon, pinned, n);
      if n < cut && ordered[n].id !in pinned {
        forgotten := forgotten + {ordered[n].id};
      } else {
        kept := kept + [ordered[n]];
      }
    }
    assert ordered[..|ordered|] == ordered;
  }

  /** prune's pass over the evidence. */
  method PruneEvidence(evidence: map<bytes, Evidence>, horizon: int, pinned: set<bytes>)
    returns (kept: map<bytes, Evidence>, forgotten: set<bytes>)
    ensures kept == KeepEvidence(evidence, horizon, pinned) && forgotten == evidence.Keys - kept.Keys
  {
    kept, forgotten := evidence, {};
    var todo := evidence.Keys;
    while todo != {}
      invariant todo <= evidence.Keys
      invariant kept == map id | id in evidence && (id in todo || !Releasable(evidence[id].record, horizon, pinned)) :: evidence[id]
      invariant forgotten == evidence.Keys - kept.Keys
      decreases |todo|
    {
      var id :| id in todo;
      todo := todo - {id};
      if evidence[id].record.eventTime < horizon && evidence[id].record.id !in pinned {
        kept := kept - {id};
        forgotten := forgotten + {id};
      }
    }
  }

  method SearchHorizon(ordered: seq<Record>, horizon: int) returns (cut: nat)
    requires Sorted(ordered)
    ensures cut <= |ordered|
    ensures forall k :: 0 <= k < |ordered| ==> (k < cut <==> ordered[k].eventTime < horizon)
  {
    var lo, hi := 0, |ordered|;
    while lo < hi
      invariant 0 <= lo <= hi <= |ordered|
      invariant forall k :: 0 <= k < lo ==> ordered[k].eventTime < horizon
      invariant forall k :: hi <= k < |ordered| ==> ordered[k].eventTime >= horizon
    {
      var mid := (lo + hi) / 2;
      assert forall k :: 0 <= k < mid ==> SortsBefore(ordered[k], ordered[mid]);
      assert forall k :: mid < k < |ordered| ==> SortsBefore(ordered[mid], ordered[k]);
      if ordered[mid].eventTime >= horizon { hi := mid; } else { lo := mid + 1; }
    }
    cut := lo;
  }
}
