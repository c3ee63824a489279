/** Runs that release nothing: the engine is one fold, and decisions are final. */
module IncidentRuns {
  import opened Basics
  import opened IncidentModel
  import opened IncidentFold

  /** A family from which nothing was ever released. */
  ghost predicate Intact(f: Family) {
    && Sorted(f.ordered) && Distinct(f.ordered)
    && f.pruned == 0
    && f.generations == Arrange(Fold(f.ordered), f.evidence, 0, f.advancedTo)
    && (forall id :: id in f.evidence ==> f.evidence[id].record.id == id && id !in Ids(f.ordered))
  }

  ghost predicate New(f: Family, r: Record) {
    r.id !in Ids(f.ordered) && r.id !in f.evidence
  }

  // ---------------------------------------------------------------- evidence attachment

  ghost predicate SameIdentity(a: seq<Episode>, b: seq<Episode>) {
    |a| == |b| && forall i :: 0 <= i < |a| ==> a[i].deployment == b[i].deployment && a[i].first == b[i].first
  }

  lemma {:induction false} TargetBySameIdentity(a: seq<Episode>, b: seq<Episode>, deployment: bytes, t: int)
    requires SameIdentity(a, b)
    ensures EvidenceTarget(a, deployment, t) == EvidenceTarget(b, deployment, t)
  {
    if a != [] { TargetBySameIdentity(a[..|a| - 1], b[..|b| - 1], deployment, t); }
  }

  ghost predicate IsTarget(eps: seq<Episode>, deployment: bytes, t: int, i: nat) {
    && i < |eps| && eps[i].deployment == deployment
    && (forall j :: 0 <= j < |eps| && eps[j].deployment == deployment && eps[j].first <= t ==> j <= i)
    && (eps[i].first > t ==> forall j :: 0 <= j < |eps| && eps[j].deployment == deployment ==>
                               i <= j && eps[j].first > t)
  }

  lemma {:induction false} TargetExact(eps: seq<Episode>, deployment: bytes, t: int)
    ensures match EvidenceTarget(eps, deployment, t)
            case Some(i) => IsTarget(eps, deployment, t, i)
            case None => forall j :: 0 <= j < |eps| ==> eps[j].deployment != deployment
  {
    if eps != [] { TargetExact(eps[..|eps| - 1], deployment, t); }
  }

  lemma AttachedBySameIdentity(evidence: map<bytes, Evidence>, a: seq<Episode>, b: seq<Episode>, i: nat)
    requires SameIdentity(a, b)
    ensures AttachedTo(evidence, a, i) == AttachedTo(evidence, b, i)
  {
    hide EvidenceTarget, SameIdentity;
    forall id | id in evidence {
      TargetBySameIdentity(a, b, evidence[id].record.deployment, evidence[id].record.eventTime);
    }
  }

  lemma EpisodesOfArranged(eps: seq<Episode>, evidence: map<bytes, Evidence>, pruned: nat, at: Option<int>)
    ensures Episodes(Arrange(eps, evidence, pruned, at)) == eps
  {
  }

  lemma AttachNew(eps: seq<Episode>, evidence: map<bytes, Evidence>, pruned: nat, at: Option<int>, id: bytes,
                  e: Evidence)
    requires id !in evidence && e.record.id == id
    ensures AttachOne(Arrange(eps, evidence, pruned, at), e) == Arrange(eps, evidence[id := e], pruned, at)
  {
    EpisodesOfArranged(eps, evidence, pruned, at);
    hide EvidenceTarget, StatusAt;
    var target := EvidenceTarget(eps, e.record.deployment, e.record.eventTime);
    forall i: nat | i < |eps|
      ensures AttachedTo(evidence[id := e], eps, i) ==
              if e.attach && target == Some(i) then AttachedTo(evidence, eps, i)[id := e.record]
              else AttachedTo(evidence, eps, i)
    {
    }
    var x, y := AttachOne(Arrange(eps, evidence, pruned, at), e), Arrange(eps, evidence[id := e], pruned, at);
    forall i: nat | i < |eps| ensures x[i] == y[i] { }
  }

  // ---------------------------------------------------------------- one observation

  lemma RebuildIntact(f: Family, r: Record)
    requires Intact(f) && Fresh(f.ordered, r)
    ensures Rebuild(TakeRecord(f, r)) ==
            f.(ordered := Inserted(f.ordered, r),
               generations := Arrange(Fold(Inserted(f.ordered, r)), f.evidence, 0, f.advancedTo))
  {
    var n := Inserted(f.ordered, r);
    EpisodesOfArranged(Fold(f.ordered), f.evidence, 0, f.advancedTo);
    ReconstructIsFold(f.ordered, r);
    InsertKeepsOrder(f.ordered, r);
    FirstEpisodeLives(n);
    hide Fold, Reconstruct, Inserted, AttachedTo, StatusAt;
    var all := Arrange(Fold(n), f.evidence, 0, f.advancedTo);
    assert all[0].episode == Fold(n)[0];
    assert all[0..] == all;
  }

  lemma FirstEpisodeLives(s: seq<Record>)
    requires Sorted(s) && Distinct(s) && s != []
    ensures Fold(s) != [] && |Fold(s)[0].records| != 0
  {
    OrdMonotone(s, 0, 0);
    FoldShaped(s);
    var k := EpisodeStart(s, 0);
    assert s[k].id in Fold(s)[0].records;
  }

  lemma ExtendIntact(f: Family, r: Record)
    requires Intact(f) && Fresh(f.ordered, r) && Rank(f.ordered, r) == |f.ordered|
    ensures Extend(TakeRecord(f, r), r) ==
            f.(ordered := Inserted(f.ordered, r),
               generations := Arrange(Fold(Inserted(f.ordered, r)), f.evidence, 0, f.advancedTo))
  {
    var o, n := f.ordered, Inserted(f.ordered, r);
    RankSplits(o, r);
    assert n == o + [r] && n[..|n| - 1] == o;
    var eps := Fold(o);
    assert Fold(n) == FoldStep(eps, r);
    EpisodesOfArranged(eps, f.evidence, 0, f.advancedTo);
    FoldShaped(o);
    if eps != [] && Joins(eps[|eps| - 1], r) {
      var e := EpisodeStart(o, |eps| - 1);
      assert SortsBefore(o[e], r);
      RefreshJoined(eps, Fold(n), f.evidence, f.advancedTo, r);
    }
  }

  lemma RefreshJoined(a: seq<Episode>, b: seq<Episode>, evidence: map<bytes, Evidence>, at: Option<int>, r: Record)
    requires a != [] && b == a[..|a| - 1] + [Contribute(a[|a| - 1], r)] && r.eventTime >= a[|a| - 1].first
    ensures var gens := Arrange(a, evidence, 0, at); var n := |gens| - 1;
            Refresh(gens[..n] + [gens[n].(episode := Contribute(a[n], r))], at) == Arrange(b, evidence, 0, at)
  {
    var gens, n := Arrange(a, evidence, 0, at), |a| - 1;
    var next := gens[..n] + [gens[n].(episode := Contribute(a[n], r))];
    assert SameIdentity(a, b);
    assert Episodes(next) == b;
    hide AttachedTo;
    forall i: nat | i < |a| ensures AttachedTo(evidence, a, i) == AttachedTo(evidence, b, i) {
      AttachedBySameIdentity(evidence, a, b, i);
    }
  }

  lemma FreshForFamily(f: Family, r: Record)
    requires Intact(f) && New(f, r)
    ensures Fresh(f.ordered, r)
  {
    forall i | 0 <= i < |f.ordered| ensures f.ordered[i].id != r.id { assert f.ordered[i] in f.ordered; }
  }

  lemma IdsOfInserted(o: seq<Record>, x: Record)
    ensures Ids(Inserted(o, x)) == Ids(o) + {x.id}
  {
    var t := Inserted(o, x);
    assert forall r :: r in t <==> r == x || r in o;
  }

  // ---------------------------------------------------------------- what one observation changes

  lemma PlaceFields(f: Family, r: Record)
    ensures var h := Place(f, r);
            h == f.(ordered := Inserted(f.ordered, r), generations := h.generations, pruned := h.pruned)
  {
    hide Arrange, Reconstruct, LeadingEmpty, Refresh, InsertAt, Rank, Joins, Contribute, Episodes, Begin;
  }

  lemma RequestFields(f: Family)
    ensures var h := Request(f); h == f.(active := h.active, contextVersion := h.contextVersion)
  {
    hide Satisfied, GenerationCount;
  }

  /** Observe either keeps the record as evidence or adds it to the reconstruction order, and frees nothing. */
  lemma ObserveFamilyFields(f: Family, r: Record)
    ensures var g, h := Note(f, r), ObserveFamily(f, r);
            && h.id == f.id && h.advancedTo == f.advancedTo && h.finalized == g.finalized && h.maxEvent == g.maxEvent
            && h.watermark == g.watermark && h.lastActivity == g.lastActivity
            && if IsEvidence(g, r) then h.ordered == f.ordered && h.evidence == f.evidence[r.id := EvidenceOf(g, r)]
               else h.evidence == f.evidence && h.ordered == Inserted(f.ordered, r)
  {
    hide AttachOne, Place, Request, EvidenceOf, Inserted, IsEvidence;
    var g := Note(f, r);
    PlaceFields(g, r);
    RequestFields(Place(g, r));
  }

  lemma NoteKeepsIntact(f: Family, r: Record)
    requires Intact(f) && New(f, r)
    ensures Intact(Note(f, r)) && New(Note(f, r), r) && Fresh(f.ordered, r)
    ensures Note(f, r).ordered == f.ordered && Note(f, r).evidence == f.evidence
  {
    FreshForFamily(f, r);
  }

  lemma EvidenceIntact(f: Family, r: Record)
    requires Intact(f) && New(f, r)
    ensures Intact(TakeEvidence(f, r))
  {
    hide Fold, AttachOne, AttachedTo, EvidenceTarget, StatusAt, Sorted, Distinct, Ids;
    AttachNew(Fold(f.ordered), f.evidence, 0, f.advancedTo, r.id, EvidenceOf(f, r));
  }

  lemma PlaceIntact(f: Family, r: Record)
    requires Intact(f) && New(f, r) && Fresh(f.ordered, r)
    ensures Intact(Place(f, r))
  {
    hide Fold, Arrange, Extend, Rebuild, Rank, Sorted, Distinct, TakeRecord, Inserted, Ids;
    InsertKeepsOrder(f.ordered, r);
    if Rank(f.ordered, r) == |f.ordered| { ExtendIntact(f, r); } else { RebuildIntact(f, r); }
    IdsOfInserted(f.ordered, r);
  }

  /** Whatever path Observe takes, the family stays exactly the fold of its contributing records. */
  lemma ObserveIntact(f: Family, r: Record)
    requires Intact(f) && New(f, r)
    ensures Intact(ObserveFamily(f, r))
    ensures var g, h := Note(f, r), ObserveFamily(f, r);
            h.id == f.id && h.finalized == g.finalized && h.advancedTo == f.advancedTo && h.maxEvent == g.maxEvent &&
            h.watermark == g.watermark && h.lastActivity == g.lastActivity &&
            if IsEvidence(g, r)
            then h.ordered == f.ordered && h.evidence == f.evidence[r.id := EvidenceOf(g, r)]
            else h.evidence == f.evidence && h.ordered == Inserted(f.ordered, r)
  {
    ObserveFamilyFields(f, r);
    ObservedIsIntact(f, r);
  }

  lemma ObservedIsIntact(f: Family, r: Record)
    requires Intact(f) && New(f, r)
    ensures Intact(ObserveFamily(f, r))
  {
    hide Intact, New, Note, TakeEvidence, Place, Request;
    var g := Note(f, r);
    NoteKeepsIntact(f, r);
    if IsEvidence(g, r) {
      EvidenceIntact(g, r);
    } else {
      PlaceIntact(g, r);
      RequestIntact(Place(g, r));
    }
  }

  lemma RequestIntact(f: Family)
    requires Intact(f)
    ensures Intact(Request(f))
  {
    RequestFields(f);
    hide Request, Fold, Arrange;
  }

  // ---------------------------------------------------------------- the frozen prefix

  /** Position of the first record not strictly behind `t`. */
  function Cut(s: seq<Record>, t: int): (c: nat)
    ensures c <= |s|
    ensures forall k :: c <= k < |s| ==> s[k].eventTime >= t
    ensures c > 0 ==> s[c - 1].eventTime < t
  {
    if s == [] then 0 else if s[|s| - 1].eventTime < t then |s| else Cut(s[..|s| - 1], t)
  }

  /** Episodes begun behind `t` have the same identity in both folds. */
  ghost predicate Frozen(a: seq<Episode>, b: seq<Episode>, t: int) {
    forall i :: (0 <= i < |a| && a[i].first < t) || (0 <= i < |b| && b[i].first < t) ==>
      i < |a| && i < |b| && a[i].first == b[i].first && a[i].deployment == b[i].deployment
  }

  lemma BegunBehind(s: seq<Record>, t: int, i: nat)
    requires Sorted(s) && Distinct(s) && i < |Fold(s)| && Fold(s)[i].first < t
    ensures i < |Fold(s[..Cut(s, t)])|
  {
    var c := Cut(s, t);
    var k := EpisodeStart(s, i);
    assert k < c;
    OrdOfPrefix(s, c, k);
    OrdMonotone(s[..c], k, k);
  }

  lemma {:induction false} CutUnique(s: seq<Record>, t: int, c: nat)
    requires c <= |s|
    requires forall k :: 0 <= k < c ==> s[k].eventTime < t
    requires forall k :: c <= k < |s| ==> s[k].eventTime >= t
    ensures Cut(s, t) == c
  {
    if c < |s| { CutUnique(s[..|s| - 1], t, c); }
  }

  lemma BehindCut(s: seq<Record>, t: int, k: nat)
    requires Sorted(s) && k < Cut(s, t)
    ensures s[k].eventTime < t
  {
    var c := Cut(s, t);
    assert k == c - 1 || SortsBefore(s[k], s[c - 1]);
  }

  lemma InsertKeepsCut(o: seq<Record>, x: Record, t: int)
    requires Fresh(o, x) && x.eventTime >= t
    ensures Cut(o, t) <= Rank(o, x) && Cut(Inserted(o, x), t) == Cut(o, t)
    ensures Inserted(o, x)[..Cut(o, t)] == o[..Cut(o, t)]
  {
    var n, c, j := Inserted(o, x), Cut(o, t), Rank(o, x);
    RankSplits(o, x);
    hide Cut;
    forall k | 0 <= k < c ensures o[k].eventTime < t && SortsBefore(o[k], x) { BehindCut(o, t, k); }
    assert c <= j;
    assert n[..c] == o[..c];
    forall k | 0 <= k < c ensures n[k].eventTime < t { assert n[k] == o[k]; }
    forall k | c <= k < |n| ensures n[k].eventTime >= t { Unshift(o, x, k); }
    CutUnique(n, t, c);
  }

  lemma Unshift(o: seq<Record>, x: Record, k: nat)
    requires k <= |o|
    ensures |Inserted(o, x)| == |o| + 1
    ensures Inserted(o, x)[k] == if k < Rank(o, x) then o[k] else if k == Rank(o, x) then x else o[k - 1]
  {
  }

  lemma InsertFreezes(o: seq<Record>, x: Record, t: int)
    requires Fresh(o, x) && x.eventTime >= t
    ensures Frozen(Fold(o), Fold(Inserted(o, x)), t)
  {
    var n := Inserted(o, x);
    InsertKeepsOrder(o, x);
    InsertKeepsCut(o, x, t);
    var c := Cut(o, t);
    hide Fold, Cut, Inserted;
    forall i: nat | (i < |Fold(o)| && Fold(o)[i].first < t) || (i < |Fold(n)| && Fold(n)[i].first < t)
      ensures i < |Fold(o)| && i < |Fold(n)| && Fold(o)[i].first == Fold(n)[i].first
      ensures Fold(o)[i].deployment == Fold(n)[i].deployment
    {
      if i < |Fold(o)| && Fold(o)[i].first < t { BegunBehind(o, t, i); } else { BegunBehind(n, t, i); }
      FoldPrefixIdentity(o, c, i);
      FoldPrefixIdentity(n, c, i);
    }
  }

  lemma TargetUnique(eps: seq<Episode>, deployment: bytes, t: int, i: nat, m: nat)
    requires IsTarget(eps, deployment, t, i) && IsTarget(eps, deployment, t, m)
    ensures i == m
  {
  }

  lemma FrozenTarget(a: seq<Episode>, b: seq<Episode>, deployment: bytes, t: int, bound: int, i: nat)
    requires Frozen(a, b, bound) && t < bound
    requires forall j, k :: 0 <= j < k < |b| ==> b[j].first <= b[k].first
    requires EvidenceTarget(a, deployment, t) == Some(i) && a[i].first < bound
    ensures EvidenceTarget(b, deployment, t) == Some(i)
  {
    hide EvidenceTarget;
    TargetExact(a, deployment, t);
    TargetExact(b, deployment, t);
    assert i < |b| && b[i].first == a[i].first && b[i].deployment == deployment;
    assert IsTarget(b, deployment, t, i);
    TargetUnique(b, deployment, t, i, EvidenceTarget(b, deployment, t).value);
  }

  // ---------------------------------------------------------------- decisions

  lemma {:induction false} FindExact(s: seq<Record>, k: nat)
    requires Distinct(s) && k < |s|
    ensures Find(s, s[k].id) == Some(s[k])
  {
    if k < |s| - 1 { FindExact(s[..|s| - 1], k); assert s[k].id != s[|s| - 1].id; }
  }

  lemma ContributionContained(f: Family, k: nat)
    requires Intact(f) && k < |f.ordered|
    ensures Ord(f.ordered, k) >= 0
    ensures Containing(f.generations, f.ordered[k].id) == Some(Ord(f.ordered, k))
  {
    var o, id := f.ordered, f.ordered[k].id;
    FoldShaped(o);
    assert id in Ids(o);
    hide Fold, Ord, Containing, Arrange, StatusAt;
    var i := Containing(f.generations, id);
    assert f.generations[Ord(o, k)].episode == Fold(o)[Ord(o, k)];
    assert i.Some?;
    var g := f.generations[i.value];
    assert id in g.episode.records by { EvidenceElsewhere(f, i.value, id); }
    assert g.episode == Fold(o)[i.value];
    var l :| 0 <= l < |o| && Ord(o, l) == i.value && o[l].id == id;
    assert l == k;
  }

  lemma EvidenceElsewhere(f: Family, i: nat, id: bytes)
    requires Intact(f) && i < |f.generations|
    ensures f.generations[i].evidence == AttachedTo(f.evidence, Fold(f.ordered), i)
    ensures id in f.generations[i].evidence ==> id in f.evidence && id !in Ids(f.ordered)
  {
  }

  lemma MembersAreRetained(o: seq<Record>, i: nat)
    requires Sorted(o) && Distinct(o) && i < |Fold(o)|
    ensures Fold(o)[i].records.Keys <= Ids(o)
  {
    FoldShaped(o);
    hide Fold, Ord;
    forall id | id in Fold(o)[i].records ensures id in Ids(o) {
      var l :| 0 <= l < |o| && Ord(o, l) == i && o[l].id == id;
      assert o[l] in o;
    }
  }

  lemma EvidenceContained(f: Family, id: bytes)
    requires Intact(f) && id in f.evidence && f.evidence[id].attach
    ensures Containing(f.generations, id) ==
            EvidenceTarget(Fold(f.ordered), f.evidence[id].record.deployment, f.evidence[id].record.eventTime)
  {
    var o := f.ordered;
    var target := EvidenceTarget(Fold(o), f.evidence[id].record.deployment, f.evidence[id].record.eventTime);
    forall i: nat | i < |f.generations|
      ensures id !in f.generations[i].episode.records
      ensures id in f.generations[i].evidence <==> target == Some(i)
    {
      EvidenceElsewhere(f, i, id);
      assert f.generations[i].episode == Fold(o)[i];
      MembersAreRetained(o, i);
    }
  }

  /** `g` is `f` after one step that moved the frontier forward and contributed at or beyond it. */
  ghost predicate Grows(f: Family, g: Family) {
    && Intact(f) && Intact(g) && g.id == f.id
    && (f.finalized.Some? ==> g.finalized.Some? && g.finalized.value >= f.finalized.value)
    && (forall id :: id in f.evidence ==> id in g.evidence && g.evidence[id] == f.evidence[id])
    && (g.ordered == f.ordered ||
        exists x :: Fresh(f.ordered, x) && g.ordered == Inserted(f.ordered, x) && !Before(x.eventTime, f.finalized))
  }

  lemma FoldFirstsAscend(s: seq<Record>)
    requires Sorted(s) && Distinct(s)
    ensures forall j, k :: 0 <= j < k < |Fold(s)| ==> Fold(s)[j].first <= Fold(s)[k].first
  {
    hide Fold;
    forall j, k | 0 <= j < k < |Fold(s)| ensures Fold(s)[j].first <= Fold(s)[k].first { FoldSortedByStart(s, j, k); }
  }

  lemma GrowsFreezes(f: Family, g: Family)
    requires Grows(f, g) && f.finalized.Some?
    ensures Frozen(Fold(f.ordered), Fold(g.ordered), f.finalized.value)
    ensures forall k :: 0 <= k < |f.ordered| && f.ordered[k].eventTime < f.finalized.value ==>
              k < |g.ordered| && g.ordered[k] == f.ordered[k] && Ord(g.ordered, k) == Ord(f.ordered, k)
  {
    hide Fold, Ord;
    if g.ordered != f.ordered {
      var x :| Fresh(f.ordered, x) && g.ordered == Inserted(f.ordered, x) && !Before(x.eventTime, f.finalized);
      InsertFreezes(f.ordered, x, f.finalized.value);
      RankSplits(f.ordered, x);
      forall k | 0 <= k < |f.ordered| && f.ordered[k].eventTime < f.finalized.value
        ensures k < |g.ordered| && g.ordered[k] == f.ordered[k] && Ord(g.ordered, k) == Ord(f.ordered, k)
      {
        OrderBehind(f.ordered, x, k);
        SamePrefix(f.ordered, x, k);
      }
    }
  }

  lemma OrderBehind(o: seq<Record>, x: Record, k: nat)
    requires Sorted(o) && k < |o| && o[k].eventTime < x.eventTime
    ensures k < Rank(o, x) && Inserted(o, x)[k] == o[k]
  {
    RankSplits(o, x);
  }

  lemma FamilyDecisionKept(f: Family, g: Family, id: bytes, evidence: bool, late: bool)
    requires Grows(f, g) && FamilyDecision(f, id, evidence, late).Some?
    ensures FamilyDecision(g, id, evidence, late) == FamilyDecision(f, id, evidence, late)
  {
    hide Fold, Ord, Containing, EvidenceTarget, Arrange, Find, Cut, Inserted;
    GrowsFreezes(f, g);
    FoldFirstsAscend(g.ordered);
    var r := HeldRecord(f, id, evidence).value;
    var i := Containing(f.generations, id).value;
    assert f.generations[i].episode == Fold(f.ordered)[i];
    if evidence {
      EvidenceContained(f, id);
      EvidenceContained(g, id);
      FrozenTarget(Fold(f.ordered), Fold(g.ordered), r.deployment, r.eventTime, f.finalized.value, i);
    } else {
      var k :| 0 <= k < |f.ordered| && f.ordered[k] == r;
      ContributionContained(f, k);
      FindExact(g.ordered, k);
      ContributionContained(g, k);
    }
    assert g.generations[i].episode == Fold(g.ordered)[i];
  }
}
