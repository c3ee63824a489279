/**
 * The values the incident engine works on, and what each of its operations computes.
 * Times are nanoseconds; an unset Go time is None.
 */
module IncidentModel {
  import opened Basics

  const SECOND := 1_000_000_000
  const MINUTE := 60 * SECOND
  const HOUR := 60 * MINUTE
  const THRESHOLD := 5
  const WINDOW := 5 * MINUTE
  const LATENESS := 2 * MINUTE
  const QUIET := 15 * MINUTE
  const REOPEN := 2 * HOUR
  const RETENTION := WINDOW + LATENESS + REOPEN
  const REINVESTIGATE := 24 * HOUR

  /** `incident` is the family key derived from the fingerprint; None when the fingerprint refuses the record. */
  datatype Record = Record(id: bytes, incident: Option<bytes>, deployment: bytes,
                           eventTime: int, observedTime: int, eligible: bool)

  datatype Status = Active | Quiet

  /** What the contributions of a generation determine. `latest` stands for latestOccurrence and maxEventTime. */
  datatype Episode = Episode(deployment: bytes, first: int, latest: int, lastActivity: int,
                             records: map<bytes, Record>, times: seq<int>, eligible: seq<int>,
                             satisfiedAt: Option<int>)

  datatype Generation = Generation(number: nat, status: Status, episode: Episode, evidence: map<bytes, Record>)

  datatype Evidence = Evidence(record: Record, attach: bool, late: bool)

  datatype Family = Family(id: bytes, ordered: seq<Record>, evidence: map<bytes, Evidence>,
                           generations: seq<Generation>, active: bool, contextVersion: nat,
                           maxEvent: Option<int>, watermark: Option<int>, finalized: Option<int>,
                           advancedTo: Option<int>, lastActivity: Option<int>, pruned: nat)

  datatype Location = Location(incident: bytes, late: bool, evidence: bool)

  datatype Engine = Engine(families: map<bytes, Family>, seen: map<bytes, Location>, pinned: set<bytes>)

  // ---------------------------------------------------------------- order and windows

  function Activity(r: Record): int {
    if r.eventTime > r.observedTime then r.observedTime else r.eventTime
  }

  predicate SortsBefore(l: Record, r: Record) {
    if l.eventTime != r.eventTime then l.eventTime < r.eventTime
    else if l.deployment != r.deployment then Less(l.deployment, r.deployment)
    else Less(l.id, r.id)
  }

  ghost predicate Sorted(s: seq<Record>) {
    forall i, j :: 0 <= i < j < |s| ==> SortsBefore(s[i], s[j])
  }

  predicate InHalfOpenWindow(event: int, watermark: int, duration: int) {
    duration > 0 && event <= watermark && event > watermark - duration
  }

  /** How many of `times` lie in the investigation window ending at `watermark`. */
  function WindowCount(times: seq<int>, watermark: int): nat {
    if times == [] then 0
    else WindowCount(times[..|times| - 1], watermark) +
         (if InHalfOpenWindow(times[|times| - 1], watermark, WINDOW) then 1 else 0)
  }

  /** Number of records of `s` that sort before `r`: where insert places it. */
  function Rank(s: seq<Record>, r: Record): (i: nat)
    ensures i <= |s|
  {
    if s == [] then 0
    else if SortsBefore(s[|s| - 1], r) then |s|
    else Rank(s[..|s| - 1], r)
  }

  function InsertAt(s: seq<Record>, i: nat, r: Record): seq<Record>
    requires i <= |s|
  {
    s[..i] + [r] + s[i..]
  }

  // ---------------------------------------------------------------- the episode fold

  function Begin(r: Record): Episode {
    Episode(r.deployment, r.eventTime, r.eventTime, Activity(r), map[r.id := r], [r.eventTime],
            if r.eligible then [r.eventTime] else [], None)
  }

  function Contribute(g: Episode, r: Record): Episode {
    var eligible := if r.eligible then g.eligible + [r.eventTime] else g.eligible;
    Episode(g.deployment,
            if r.eventTime < g.first then r.eventTime else g.first,
            if r.eventTime > g.latest then r.eventTime else g.latest,
            if Activity(r) > g.lastActivity then Activity(r) else g.lastActivity,
            g.records[r.id := r], g.times + [r.eventTime], eligible,
            if r.eligible && g.satisfiedAt.None? && WindowCount(eligible, r.eventTime) >= THRESHOLD
            then Some(r.eventTime) else g.satisfiedAt)
  }

  predicate Joins(g: Episode, r: Record) {
    g.deployment == r.deployment && Activity(r) < g.lastActivity + REOPEN
  }

  function FoldStep(eps: seq<Episode>, r: Record): seq<Episode> {
    if eps != [] && Joins(eps[|eps| - 1], r)
    then eps[..|eps| - 1] + [Contribute(eps[|eps| - 1], r)]
    else eps + [Begin(r)]
  }

  /** The reference: one left fold over the reconstruction order. */
  function Fold(s: seq<Record>): seq<Episode> {
    if s == [] then [] else FoldStep(Fold(s[..|s| - 1]), s[|s| - 1])
  }

  function Episodes(gens: seq<Generation>): (eps: seq<Episode>)
    ensures |eps| == |gens| && forall i :: 0 <= i < |eps| ==> eps[i] == gens[i].episode
  {
    seq(|gens|, i requires 0 <= i < |gens| => gens[i].episode)
  }

  // ---------------------------------------------------------------- identity adoption and shells

  /** The index the identity map of adoptAssignedIdentities holds for a record: its last prior episode. */
  function Assigned(prior: seq<Episode>, id: bytes): (index: Option<nat>)
    ensures index.Some? ==> index.value < |prior| && id in prior[index.value].records
    ensures index.None? ==> forall i :: 0 <= i < |prior| ==> id !in prior[i].records
  {
    if prior == [] then None
    else if id in prior[|prior| - 1].records then Some(|prior| - 1)
    else Assigned(prior[..|prior| - 1], id)
  }

  ghost predicate Candidate(prior: seq<Episode>, g: Episode, cursor: nat, index: nat) {
    index >= cursor && exists id :: id in g.records && Assigned(prior, id) == Some(index)
  }

  /** `m` is the least not-yet-adopted assignment any record of `g` held. */
  ghost predicate Matches(prior: seq<Episode>, g: Episode, cursor: nat, m: Option<nat>) {
    if m.Some? then Candidate(prior, g, cursor, m.value) &&
                    forall i: nat :: Candidate(prior, g, cursor, i) ==> m.value <= i
    else forall i: nat :: !Candidate(prior, g, cursor, i)
  }

  ghost function Match(prior: seq<Episode>, g: Episode, cursor: nat): (m: Option<nat>)
    ensures Matches(prior, g, cursor, m)
  {
    if exists i: nat :: Candidate(prior, g, cursor, i)
    then var i: nat :| Candidate(prior, g, cursor, i); Some(LeastCandidate(prior, g, cursor, i))
    else None
  }

  ghost function LeastCandidate(prior: seq<Episode>, g: Episode, cursor: nat, from: nat): (m: nat)
    requires Candidate(prior, g, cursor, from)
    ensures Matches(prior, g, cursor, Some(m))
    decreases from
  {
    if exists i: nat :: i < from && Candidate(prior, g, cursor, i)
    then var i: nat :| i < from && Candidate(prior, g, cursor, i); LeastCandidate(prior, g, cursor, i)
    else from
  }

  function Adopt(g: Episode, prior: Episode): Episode {
    if prior.first < g.first then g.(first := prior.first) else g
  }

  datatype Adoption = Adoption(episodes: seq<Episode>, adopted: set<nat>, cursor: nat)

  ghost function AdoptNext(prior: seq<Episode>, a: Adoption, g: Episode): (b: Adoption)
    ensures |b.episodes| == |a.episodes| + 1 && b.cursor >= a.cursor
  {
    var m := Match(prior, g, a.cursor);
    if m.None? then Adoption(a.episodes + [g], a.adopted, a.cursor)
    else Adoption(a.episodes + [Adopt(g, prior[m.value])], a.adopted + {m.value}, m.value + 1)
  }

  ghost function AdoptAll(prior: seq<Episode>, folded: seq<Episode>): (a: Adoption)
    ensures |a.episodes| == |folded|
  {
    if folded == [] then Adoption([], {}, 0)
    else AdoptNext(prior, AdoptAll(prior, folded[..|folded| - 1]), folded[|folded| - 1])
  }

  function ShellOf(p: Episode): Episode {
    p.(records := map[], times := [], eligible := [], satisfiedAt := None)
  }

  predicate RetainsAnyOf(p: Episode, held: set<bytes>) {
    exists id :: id in p.records && id in held
  }

  function Shells(prior: seq<Episode>, adopted: set<nat>, held: set<bytes>): seq<Episode> {
    if prior == [] then []
    else
      var n := |prior| - 1;
      Shells(prior[..n], adopted, held) +
      (if n in adopted || RetainsAnyOf(prior[n], held) then [] else [ShellOf(prior[n])])
  }

  predicate StartsBefore(a: Episode, b: Episode) {
    if a.first != b.first then a.first < b.first else Less(a.deployment, b.deployment)
  }

  /** sort.SliceStable: insertion from the right never passes an equal element. */
  function StableInsert(s: seq<Episode>, g: Episode): (t: seq<Episode>)
    ensures |t| == |s| + 1
  {
    if s == [] || !StartsBefore(g, s[|s| - 1]) then s + [g]
    else StableInsert(s[..|s| - 1], g) + [s[|s| - 1]]
  }

  function StableSort(s: seq<Episode>): (t: seq<Episode>)
    ensures |t| == |s|
  {
    if s == [] then [] else StableInsert(StableSort(s[..|s| - 1]), s[|s| - 1])
  }

  function Ids(s: seq<Record>): set<bytes> {
    set r | r in s :: r.id
  }

  /** foldEpisodes: fold, adopt the assigned identities, put the shells back in order. */
  ghost function Reconstruct(prior: seq<Episode>, ordered: seq<Record>): seq<Episode> {
    var a := AdoptAll(prior, Fold(ordered));
    StableSort(a.episodes + Shells(prior, a.adopted, Ids(ordered)))
  }

  // ---------------------------------------------------------------- evidence, status, numbering

  /** generationForEvidence: the last same-deployment episode begun by `t`, else that deployment's earliest. */
  function EvidenceTarget(eps: seq<Episode>, deployment: bytes, t: int): (target: Option<nat>)
    ensures target.Some? ==> target.value < |eps| && eps[target.value].deployment == deployment
  {
    if eps == [] then None
    else
      var n := |eps| - 1;
      if eps[n].deployment != deployment then EvidenceTarget(eps[..n], deployment, t)
      else if eps[n].first <= t then Some(n)
      else
        var earlier := EvidenceTarget(eps[..n], deployment, t);
        if earlier.Some? then earlier else Some(n)
  }

  function AttachedTo(evidence: map<bytes, Evidence>, eps: seq<Episode>, i: nat): map<bytes, Record> {
    map id | id in evidence && evidence[id].attach &&
             EvidenceTarget(eps, evidence[id].record.deployment, evidence[id].record.eventTime) == Some(i)
           :: evidence[id].record
  }

  function StatusAt(eps: seq<Episode>, i: nat, advancedTo: Option<int>): Status
    requires i < |eps|
  {
    if i < |eps| - 1 || (advancedTo.Some? && advancedTo.value >= eps[i].lastActivity + QUIET) then Quiet else Active
  }

  /** Episodes with their evidence, ordinal and status. */
  function Arrange(eps: seq<Episode>, evidence: map<bytes, Evidence>, pruned: nat, advancedTo: Option<int>)
    : (gens: seq<Generation>)
    ensures |gens| == |eps|
    ensures forall i :: 0 <= i < |eps| ==> gens[i].episode == eps[i]
  {
    seq(|eps|, i requires 0 <= i < |eps| =>
      Generation(pruned + i + 1, StatusAt(eps, i, advancedTo), eps[i], AttachedTo(evidence, eps, i)))
  }

  function LeadingEmpty(gens: seq<Generation>): (n: nat)
    ensures n <= |gens|
    ensures forall i :: 0 <= i < n ==> |gens[i].episode.records| == 0 && |gens[i].evidence| == 0
    ensures n < |gens| ==> |gens[n].episode.records| != 0 || |gens[n].evidence| != 0
  {
    if gens == [] || |gens[0].episode.records| != 0 || |gens[0].evidence| != 0 then 0
    else 1 + LeadingEmpty(gens[1..])
  }

  /** rebuild. A released leading run leaves the ordinals of the rest unchanged. */
  ghost function Rebuild(f: Family): Family {
    var all := Arrange(Reconstruct(Episodes(f.generations), f.ordered), f.evidence, f.pruned, f.advancedTo);
    var released := LeadingEmpty(all);
    f.(generations := all[released..], pruned := f.pruned + released)
  }

  function Refresh(gens: seq<Generation>, advancedTo: Option<int>): (r: seq<Generation>)
    ensures |r| == |gens|
  {
    seq(|gens|, i requires 0 <= i < |gens| => gens[i].(status := StatusAt(Episodes(gens), i, advancedTo)))
  }

  function GenerationCount(f: Family): nat {
    f.pruned + |f.generations|
  }

  /** extend: the record sorts after everything retained, so only the last episode can change. */
  function Extend(f: Family, r: Record): Family {
    var n := |f.generations|;
    if n > 0 && Joins(f.generations[n - 1].episode, r) then
      var g := f.generations[n - 1];
      f.(generations := Refresh(f.generations[..n - 1] + [g.(episode := Contribute(g.episode, r))], f.advancedTo))
    else
      f.(generations := Arrange(Episodes(f.generations) + [Begin(r)], f.evidence, f.pruned, f.advancedTo))
  }

  // ---------------------------------------------------------------- Observe

  function Later(t: Option<int>, u: int): Option<int> {
    if t.None? || u > t.value then Some(u) else t
  }

  /** The frontier moves Observe makes before it classifies the record. */
  function Note(f: Family, r: Record): Family {
    var g := if f.maxEvent.None? || r.eventTime > f.maxEvent.value
             then f.(maxEvent := Some(r.eventTime), watermark := Some(r.eventTime - LATENESS),
                     finalized := Later(f.finalized, r.eventTime - LATENESS))
             else f;
    g.(lastActivity := Later(g.lastActivity, Activity(r)))
  }

  predicate Before(t: int, bound: Option<int>) {
    bound.Some? && t < bound.value
  }

  predicate QuietEvidence(f: Family, r: Record) {
    f.advancedTo.Some? && f.advancedTo.value >= Activity(r) + QUIET
  }

  predicate IsEvidence(f: Family, r: Record) {
    Before(r.eventTime, f.finalized) || QuietEvidence(f, r)
  }

  function AttachOne(gens: seq<Generation>, e: Evidence): (r: seq<Generation>)
    ensures |r| == |gens|
  {
    var target := EvidenceTarget(Episodes(gens), e.record.deployment, e.record.eventTime);
    if e.attach && target.Some?
    then gens[target.value := gens[target.value].(evidence := gens[target.value].evidence[e.record.id := e.record])]
    else gens
  }

  function EvidenceOf(f: Family, r: Record): Evidence
  {
    var target := EvidenceTarget(Episodes(f.generations), r.deployment, r.eventTime);
    var veryLate := f.watermark.Some? && r.eventTime < f.watermark.value - RETENTION;
    Evidence(r, !veryLate && target.Some?, Before(r.eventTime, f.watermark))
  }

  function TakeEvidence(f: Family, r: Record): Family {
    var e := EvidenceOf(f, r);
    f.(evidence := f.evidence[r.id := e], generations := AttachOne(f.generations, e))
  }

  function TakeRecord(f: Family, r: Record): Family {
    f.(ordered := InsertAt(f.ordered, Rank(f.ordered, r), r))
  }

  ghost function Place(f: Family, r: Record): Family {
    if Rank(f.ordered, r) == |f.ordered| then Extend(TakeRecord(f, r), r) else Rebuild(TakeRecord(f, r))
  }

  predicate Satisfied(gens: seq<Generation>, finalized: Option<int>) {
    exists i :: 0 <= i < |gens| && gens[i].episode.satisfiedAt.Some? &&
                Before(gens[i].episode.satisfiedAt.value, finalized)
  }

  predicate Reached(g: Generation, finalized: Option<int>) {
    g.episode.satisfiedAt.Some? && Before(g.episode.satisfiedAt.value, finalized)
  }

  /** thresholdGeneration: the first generation whose cluster lies strictly behind the frontier. */
  function FirstSatisfied(gens: seq<Generation>, finalized: Option<int>): (i: Option<nat>)
    ensures i.Some? <==> Satisfied(gens, finalized)
    ensures i.Some? ==> i.value < |gens| && Reached(gens[i.value], finalized) && forall k :: 0 <= k < i.value ==> !Reached(gens[k], finalized)
  {
    if gens == [] then None
    else
      var earlier := FirstSatisfied(gens[..|gens| - 1], finalized);
      if earlier.Some? then earlier
      else if Reached(gens[|gens| - 1], finalized) then Some(|gens| - 1)
      else None
  }

  /** The investigation request and the context version that follow a topology change. */
  function Request(f: Family): Family {
    var g := if Satisfied(f.generations, f.finalized) then f.(active := true) else f;
    if g.active then g.(contextVersion := GenerationCount(g)) else g
  }

  ghost function ObserveFamily(f: Family, r: Record): Family {
    var g := Note(f, r);
    if IsEvidence(g, r) then TakeEvidence(g, r) else Request(Place(g, r))
  }

  function NewFamily(id: bytes): Family {
    Family(id, [], map[], [], false, 0, None, None, None, None, None, 0)
  }

  function FamilyOf(e: Engine, id: bytes): Family {
    if id in e.families then e.families[id] else NewFamily(id)
  }

  function LocationOf(f: Family, r: Record): Location {
    var g := Note(f, r);
    Location(f.id, IsEvidence(g, r) && Before(r.eventTime, g.watermark), IsEvidence(g, r))
  }

  ghost function Observe(e: Engine, r: Record): Engine {
    if r.incident.None? || r.id in e.seen then e
    else
      var f := FamilyOf(e, r.incident.value);
      e.(families := e.families[r.incident.value := ObserveFamily(f, r)],
         seen := e.seen[r.id := LocationOf(f, r)])
  }

  // ---------------------------------------------------------------- Advance and compaction

  function Deadline(f: Family, now: int): Family {
    if f.maxEvent.None? then f
    else
      var frontier := if now - LATENESS > f.maxEvent.value + 1 then f.maxEvent.value + 1 else now - LATENESS;
      f.(finalized := Later(f.finalized, frontier))
  }

  function AdvanceFamily(f: Family, now: int): Family {
    var g := Deadline(f.(advancedTo := Later(f.advancedTo, now)), now);
    var h := g.(generations := Refresh(g.generations, g.advancedTo));
    if !h.active && Satisfied(h.generations, h.finalized)
    then h.(active := true, contextVersion := GenerationCount(h)) else h
  }

  function Horizon(f: Family, now: int): int {
    (if f.watermark.Some? && f.watermark.value >= now - LATENESS then f.watermark.value else now - LATENESS) - RETENTION
  }

  predicate Releasable(r: Record, horizon: int, pinned: set<bytes>) {
    r.eventTime < horizon && r.id !in pinned
  }

  function Keep(s: seq<Record>, horizon: int, pinned: set<bytes>): seq<Record> {
    if s == [] then []
    else Keep(s[..|s| - 1], horizon, pinned) +
         (if Releasable(s[|s| - 1], horizon, pinned) then [] else [s[|s| - 1]])
  }

  function KeepEvidence(m: map<bytes, Evidence>, horizon: int, pinned: set<bytes>): map<bytes, Evidence> {
    map id | id in m && !Releasable(m[id].record, horizon, pinned) :: m[id]
  }

  function Prune(f: Family, now: int, pinned: set<bytes>): Family {
    f.(ordered := Keep(f.ordered, Horizon(f, now), pinned),
       evidence := KeepEvidence(f.evidence, Horizon(f, now), pinned))
  }

  predicate PrunesNothing(f: Family, now: int, pinned: set<bytes>) {
    Prune(f, now, pinned).ordered == f.ordered && Prune(f, now, pinned).evidence == f.evidence
  }

  ghost function CompactFamily(f: Family, now: int, pinned: set<bytes>): Family {
    if PrunesNothing(f, now, pinned) then f else Rebuild(Prune(f, now, pinned))
  }

  /** An emptied family survives only while its investigation still suppresses a relaunch. */
  predicate Survives(f: Family, now: int) {
    f.ordered != [] || f.evidence != map[] ||
    (f.active && f.lastActivity.Some? && now < f.lastActivity.value + REINVESTIGATE)
  }

  function Released(f: Family, now: int, pinned: set<bytes>): set<bytes> {
    (Ids(f.ordered) + f.evidence.Keys) -
    (Ids(Prune(f, now, pinned).ordered) + Prune(f, now, pinned).evidence.Keys)
  }

  ghost function Advance(e: Engine, now: int): Engine {
    Engine(
      map id | id in e.families && Survives(CompactFamily(AdvanceFamily(e.families[id], now), now, e.pinned), now)
             :: CompactFamily(AdvanceFamily(e.families[id], now), now, e.pinned),
      map r | r in e.seen &&
      !(exists id :: id in e.families && r in Released(AdvanceFamily(e.families[id], now), now, e.pinned))
            :: e.seen[r],
      e.pinned)
  }

  // ---------------------------------------------------------------- PersistenceDecision

  /** The identity half of a decision. The storage key is a function of deployment and episode start. */
  datatype Decision = Decision(incident: bytes, deployment: bytes, episodeStart: int, evidenceOnly: bool, late: bool)

  /** generationContaining. */
  function Containing(gens: seq<Generation>, id: bytes): (i: Option<nat>)
    ensures i.Some? ==> i.value < |gens| && (id in gens[i.value].episode.records || id in gens[i.value].evidence)
    ensures i.Some? ==> forall k :: 0 <= k < i.value ==> id !in gens[k].episode.records && id !in gens[k].evidence
    ensures i.None? ==> forall k :: 0 <= k < |gens| ==> id !in gens[k].episode.records && id !in gens[k].evidence
    decreases |gens|
  {
    if gens == [] then None
    else
      var earlier := Containing(gens[..|gens| - 1], id);
      if earlier.Some? then earlier
      else if id in gens[|gens| - 1].episode.records || id in gens[|gens| - 1].evidence then Some(|gens| - 1)
      else None
  }

  function Find(s: seq<Record>, id: bytes): (r: Option<Record>)
    ensures r.Some? ==> r.value in s && r.value.id == id
    ensures r.None? ==> forall x :: x in s ==> x.id != id
  {
    if s == [] then None
    else if s[|s| - 1].id == id then Some(s[|s| - 1])
    else Find(s[..|s| - 1], id)
  }

  function HeldRecord(f: Family, id: bytes, evidence: bool): Option<Record> {
    if evidence then (if id in f.evidence && f.evidence[id].attach then Some(f.evidence[id].record) else None)
    else Find(f.ordered, id)
  }

  function FamilyDecision(f: Family, id: bytes, evidence: bool, late: bool): Option<Decision> {
    var held := HeldRecord(f, id, evidence);
    if held.None? || !Before(held.value.eventTime, f.finalized) then None
    else
      var i := Containing(f.generations, id);
      if i.None? || !Before(f.generations[i.value].episode.first, f.finalized) then None
      else
        var g := f.generations[i.value].episode;
        Some(Decision(f.id, g.deployment, g.first, evidence, late))
  }

  function PersistenceDecision(e: Engine, id: bytes): Option<Decision> {
    if id !in e.seen || e.seen[id].incident !in e.families then None
    else FamilyDecision(e.families[e.seen[id].incident], id, e.seen[id].evidence, e.seen[id].late)
  }
}
