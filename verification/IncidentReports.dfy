/** The update reports of the engine: what the caller is told, and what it may rely on over a whole run. */
module IncidentReports {
  import opened Basics
  import opened IncidentModel
  import opened IncidentFold
  import opened IncidentRuns
  import opened IncidentTheorems
  import opened IncidentIndex

  /** The part of a report about one generation. */
  datatype Detail = Detail(number: nat, deployment: bytes, occurrences: nat, window: nat, watermarkWindow: nat,
                           status: Status)

  datatype Report = Report(incident: bytes, generation: Option<Detail>, count: nat, duplicate: bool, requested: bool,
                           active: bool, contextVersion: nat, contextUpdated: bool, watermark: Option<int>, late: bool,
                           evidenceOnly: bool)

  function InWindow(held: map<bytes, Record>, t: int): set<bytes> {
    set id | id in held && InHalfOpenWindow(held[id].eventTime, t, WINDOW)
  }

  /** countInWindow. */
  function CountInWindow(g: Generation, t: Option<int>): nat {
    if t.None? then 0 else WindowCount(g.episode.times, t.value) + |InWindow(g.evidence, t.value)|
  }

  function DetailOf(g: Generation, watermark: Option<int>): Detail {
    Detail(g.number, g.episode.deployment, |g.episode.records| + |g.evidence|, CountInWindow(g, Some(g.episode.latest)),
           CountInWindow(g, watermark), g.status)
  }

  /** update. */
  function ReportOf(f: Family, i: Option<nat>, duplicate: bool, requested: bool, contextUpdated: bool, late: bool,
                    evidenceOnly: bool): Report
  {
    Report(f.id,
           if i.Some? && i.value < |f.generations| then Some(DetailOf(f.generations[i.value], f.watermark)) else None,
           GenerationCount(f), duplicate, requested, f.active, f.contextVersion, contextUpdated, f.watermark, late, evidenceOnly)
  }

  /** topology: the deployments joined by null bytes. */
  function Topology(gens: seq<Generation>): bytes {
    if gens == [] then []
    else if |gens| == 1 then gens[0].episode.deployment
    else Topology(gens[..|gens| - 1]) + [0] + gens[|gens| - 1].episode.deployment
  }

  predicate ContextMoved(f: Family, h: Family) {
    Topology(f.generations) != Topology(h.generations) || f.contextVersion != h.contextVersion
  }

  /** What Observe reports of a new record. */
  ghost function Observation(f: Family, r: Record): Report {
    var g, h := Note(f, r), ObserveFamily(f, r);
    var at := Containing(h.generations, r.id);
    if IsEvidence(g, r) then ReportOf(h, at, false, false, false, Before(r.eventTime, g.watermark), true)
    else ReportOf(h, at, false, !f.active && h.active, f.active && ContextMoved(f, h), false, false)
  }

  /** What Observe reports; nothing when the fingerprint refuses the record. */
  ghost function ObserveReport(e: Engine, r: Record): Option<Report> {
    if r.incident.None? then None
    else if r.id !in e.seen then Some(Observation(FamilyOf(e, r.incident.value), r))
    else if e.seen[r.id].incident !in e.families then None
    else
      var f := e.families[e.seen[r.id].incident];
      Some(ReportOf(f, Containing(f.generations, r.id), true, false, false, e.seen[r.id].late, e.seen[r.id].evidence))
  }

  /** Generations that went from active to quiet, in order, except one reported already. */
  function QuietReports(f: Family, g: Family, skip: Option<nat>, n: nat): seq<Report>
    requires n <= |f.generations| == |g.generations|
  {
    if n == 0 then []
    else
      QuietReports(f, g, skip, n - 1) +
      if f.generations[n - 1].status.Active? && g.generations[n - 1].status.Quiet? && skip != Some(n - 1)
      then [ReportOf(g, Some(n - 1), false, false, false, false, false)] else []
  }

  function RequestedAt(f: Family, g: Family): Option<nat> {
    if f.active then None else FirstSatisfied(g.generations, g.finalized)
  }

  /** What Advance reports of one family, before it compacts it. */
  function FamilyReports(f: Family, now: int): seq<Report> {
    var g := AdvanceFamily(f, now);
    var at := RequestedAt(f, g);
    (if at.Some? then [ReportOf(g, at, false, true, false, false, false)] else []) +
    QuietReports(f, g, at, |g.generations|)
  }

  function AdvanceReports(e: Engine, ids: seq<bytes>, now: int): seq<Report> {
    if ids == [] then []
    else
      AdvanceReports(e, ids[..|ids| - 1], now) +
      if ids[|ids| - 1] in e.families then FamilyReports(e.families[ids[|ids| - 1]], now) else []
  }

  ghost predicate Lists(s: seq<bytes>, ids: set<bytes>) {
    Ascending(s) && forall x :: x in s <==> x in ids
  }

  lemma InsertListed(s: seq<bytes>, ids: set<bytes>, x: bytes) returns (t: seq<bytes>)
    requires Lists(s, ids) && x !in ids
    ensures Lists(t, ids + {x})
    decreases |s|
  {
    hide Less;
    if s == [] { return [x]; }
    var n := |s| - 1;
    assert s == s[..n] + [s[n]];
    LessTotal(s[n], x);
    if Less(s[n], x) {
      t := s + [x];
      forall i | 0 <= i < |s| ensures Less(s[i], x) { if i < n { LessTransitive(s[i], s[n], x); } }
    } else {
      LessIrreflexive(s[n]);
      var u := InsertListed(s[..n], ids - {s[n]}, x);
      t := u + [s[n]];
      forall i | 0 <= i < |u| ensures Less(u[i], s[n]) { assert u[i] in u; }
    }
  }

  lemma ListingExists(ids: set<bytes>)
    ensures exists s :: Lists(s, ids)
  {
    if ids == {} {
      assert Lists([], ids);
    } else {
      var x :| x in ids;
      ListingExists(ids - {x});
      var s :| Lists(s, ids - {x});
      var t := InsertListed(s, ids - {x}, x);
      assert ids - {x} + {x} == ids;
    }
  }

  /** The ascending listing of a set of names. */
  ghost function Listing(ids: set<bytes>): (s: seq<bytes>)
    ensures Lists(s, ids)
  {
    ListingExists(ids);
    var s :| Lists(s, ids);
    s
  }

  /** Everything one input makes the engine report. */
  ghost function StepReports(e: Engine, input: Input): seq<Report> {
    match input
    case ObserveInput(r) => (match ObserveReport(e, r) case Some(x) => [x] case None => [])
    case AdvanceInput(now) => AdvanceReports(e, Listing(e.families.Keys), now)
    case PinInput(_) => []
  }

  // ---------------------------------------------------------------- the window counts are true

  /** The times an episode keeps count its records, each once. */
  ghost predicate Counted(g: Episode) {
    forall t :: WindowCount(g.times, t) == |InWindow(g.records, t)|
  }

  lemma ContributeCounted(g: Episode, r: Record)
    requires Counted(g) && r.id !in g.records
    ensures Counted(Contribute(g, r))
  {
    var h := Contribute(g, r);
    forall t ensures WindowCount(h.times, t) == |InWindow(h.records, t)| {
      assert h.times[..|h.times| - 1] == g.times;
      assert WindowCount(g.times, t) == |InWindow(g.records, t)|;
      hide WindowCount, InHalfOpenWindow;
      assert InWindow(h.records, t) ==
             if InHalfOpenWindow(r.eventTime, t, WINDOW) then InWindow(g.records, t) + {r.id} else InWindow(g.records, t);
    }
  }

  lemma BeginCounted(r: Record)
    ensures Counted(Begin(r))
  {
    var h := Begin(r);
    forall t ensures WindowCount(h.times, t) == |InWindow(h.records, t)| {
      assert h.times[..0] == [];
      assert InWindow(h.records, t) == if InHalfOpenWindow(r.eventTime, t, WINDOW) then {r.id} else {};
    }
  }

  lemma {:induction false} FoldCounted(o: seq<Record>)
    requires Distinct(o)
    ensures forall i :: 0 <= i < |Fold(o)| ==> Counted(Fold(o)[i]) && Fold(o)[i].records.Keys <= Ids(o)
  {
    if o != [] {
      var n := |o| - 1;
      assert o == o[..n] + [o[n]];
      FoldCounted(o[..n]);
      BeginCounted(o[n]);
      assert o[n].id !in Ids(o[..n]) && Ids(o) == Ids(o[..n]) + {o[n].id};
      var eps := Fold(o[..n]);
      hide Counted, Joins, Contribute, Begin, Ids;
      StepCounted(eps, o[n], Ids(o[..n]));
    }
  }

  lemma StepCounted(eps: seq<Episode>, r: Record, ids: set<bytes>)
    requires (forall i :: 0 <= i < |eps| ==> Counted(eps[i]) && eps[i].records.Keys <= ids) && r.id !in ids
    ensures forall i :: 0 <= i < |FoldStep(eps, r)| ==>
              Counted(FoldStep(eps, r)[i]) && FoldStep(eps, r)[i].records.Keys <= ids + {r.id}
  {
    BeginCounted(r);
    if eps != [] { ContributeCounted(eps[|eps| - 1], r); }
    hide Counted;
  }

  /**
   * In a run that releases nothing a window count is the number of records and of evidence whose event time is inside.
   */
  lemma WindowCountsAreExact(inputs: seq<Input>, id: bytes, i: nat, t: int)
    requires QuietRun(EMPTY, inputs) && id in Run(EMPTY, inputs).families
    requires i < |Run(EMPTY, inputs).families[id].generations|
    ensures var g := Run(EMPTY, inputs).families[id].generations[i];
            CountInWindow(g, Some(t)) == |InWindow(g.episode.records, t)| + |InWindow(g.evidence, t)| ==
            |InWindow(g.episode.records + g.evidence, t)|
  {
    RunIsIntact(inputs);
    var f := Run(EMPTY, inputs).families[id];
    hide Run, QuietRun, Fold, AttachedTo, InWindow, WindowCount, Ids;
    FoldCounted(f.ordered);
    var g := f.generations[i];
    assert g.episode == Fold(f.ordered)[i] && g.evidence == AttachedTo(f.evidence, Fold(f.ordered), i);
    AttachedIsEvidence(f.evidence, Fold(f.ordered), i);
    Together(g.episode.records, g.evidence, t);
  }

  lemma AttachedIsEvidence(evidence: map<bytes, Evidence>, eps: seq<Episode>, i: nat)
    ensures AttachedTo(evidence, eps, i).Keys <= evidence.Keys
  {
  }

  lemma Together(a: map<bytes, Record>, b: map<bytes, Record>, t: int)
    requires a.Keys !! b.Keys
    ensures |InWindow(a + b, t)| == |InWindow(a, t)| + |InWindow(b, t)|
  {
    hide InHalfOpenWindow;
    assert InWindow(a + b, t) == InWindow(a, t) + InWindow(b, t);
  }

  // ---------------------------------------------------------------- an investigation is requested once

  /** How many investigations of an incident some reports request. */
  function Requests(reports: seq<Report>, id: bytes): nat {
    if reports == [] then 0
    else Requests(reports[..|reports| - 1], id) +
         if reports[|reports| - 1].requested && reports[|reports| - 1].incident == id then 1 else 0
  }

  lemma {:induction false} RequestsAppend(a: seq<Report>, b: seq<Report>, id: bytes)
    ensures Requests(a + b, id) == Requests(a, id) + Requests(b, id)
  {
    if b == [] {
      assert a + b == a;
    } else {
      assert (a + b)[..|a + b| - 1] == a + b[..|b| - 1];
      RequestsAppend(a, b[..|b| - 1], id);
    }
  }

  lemma OneRequest(x: Report, id: bytes)
    ensures Requests([x], id) == if x.requested && x.incident == id then 1 else 0
  {
    assert [x][..0] == [];
  }

  lemma {:induction false} QuietRequestsNothing(f: Family, g: Family, skip: Option<nat>, n: nat, id: bytes)
    requires n <= |f.generations| == |g.generations|
    ensures Requests(QuietReports(f, g, skip, n), id) == 0
  {
    hide Requests;
    NoRequests(id);
    if n > 0 {
      QuietRequestsNothing(f, g, skip, n - 1, id);
      var x := ReportOf(g, Some(n - 1), false, false, false, false, false);
      OneRequest(x, id);
      RequestsAppend(QuietReports(f, g, skip, n - 1), [x], id);
      assert QuietReports(f, g, skip, n - 1) + [] == QuietReports(f, g, skip, n - 1);
    }
  }

  /** The engine keeps every family under its own name. */
  ghost predicate Named(e: Engine) {
    forall id :: id in e.families ==> e.families[id].id == id
  }

  function Turned(was: bool, now: bool): nat {
    if !was && now then 1 else 0
  }

  lemma AdvanceActive(f: Family, now: int)
    ensures var g := AdvanceFamily(f, now);
            && g.id == f.id && |g.generations| == |f.generations|
            && (f.active ==> g.active && g.contextVersion == f.contextVersion)
            && (g.active <==> f.active || Satisfied(g.generations, g.finalized))
            && (!g.active ==> g.contextVersion == f.contextVersion)
  {
    hide Satisfied, StatusAt;
  }

  lemma FamilyRequests(f: Family, now: int, id: bytes)
    ensures Requests(FamilyReports(f, now), id) == if f.id == id then Turned(f.active, AdvanceFamily(f, now).active) else 0
  {
    var g := AdvanceFamily(f, now);
    var at := RequestedAt(f, g);
    AdvanceActive(f, now);
    QuietRequestsNothing(f, g, at, |g.generations|, id);
    hide AdvanceFamily, QuietReports, Requests, FirstSatisfied, Satisfied;
    var x := ReportOf(g, at, false, true, false, false, false);
    OneRequest(x, id);
    RequestsAppend([x], QuietReports(f, g, at, |g.generations|), id);
    assert [] + QuietReports(f, g, at, |g.generations|) == QuietReports(f, g, at, |g.generations|);
  }

  lemma {:induction false} AdvanceRequests(e: Engine, ids: seq<bytes>, now: int, id: bytes)
    requires Named(e) && Ascending(ids) && forall x :: x in ids ==> x in e.families
    ensures Requests(AdvanceReports(e, ids, now), id) ==
              if id in ids then Turned(e.families[id].active, AdvanceFamily(e.families[id], now).active) else 0
  {
    hide AdvanceFamily, FamilyReports, Requests, Less, Turned;
    if ids == [] {
      NoRequests(id);
    } else {
      var n := |ids| - 1;
      assert ids == ids[..n] + [ids[n]];
      LessIrreflexive(ids[n]);
      assert ids[n] !in ids[..n];
      AdvanceRequests(e, ids[..n], now, id);
      FamilyRequests(e.families[ids[n]], now, id);
      RequestsAppend(AdvanceReports(e, ids[..n], now), FamilyReports(e.families[ids[n]], now), id);
    }
  }

  lemma NoRequests(id: bytes)
    ensures Requests([], id) == 0
  {
  }

  lemma ObserveActive(f: Family, r: Record)
    ensures var h := ObserveFamily(f, r);
            && h.id == f.id && (f.active ==> h.active)
            && (IsEvidence(Note(f, r), r) ==> h.active == f.active && h.contextVersion == f.contextVersion)
            && (!h.active ==> h.contextVersion == f.contextVersion)
  {
    ObserveFamilyFields(f, r);
    PlaceKeepsActive(Note(f, r), r);
    hide AttachOne, Place, Satisfied, EvidenceOf, IsEvidence;
  }

  lemma PlaceKeepsActive(f: Family, r: Record)
    ensures Place(f, r).active == f.active && Place(f, r).contextVersion == f.contextVersion
  {
    hide Arrange, Refresh, Reconstruct, LeadingEmpty, Contribute, Begin, Joins;
  }

  lemma CompactActive(f: Family, now: int, pinned: set<bytes>)
    ensures var g := CompactFamily(f, now, pinned);
            g.id == f.id && g.active == f.active && g.contextVersion == f.contextVersion
  {
    hide Keep, KeepEvidence, Arrange, Reconstruct, LeadingEmpty, PrunesNothing, Horizon;
  }

  lemma StepKeepsNames(e: Engine, input: Input)
    requires Named(e)
    ensures Named(Step(e, input))
  {
    hide ObserveFamily, AdvanceFamily, CompactFamily, Survives, Released, LocationOf;
    match input
    case PinInput(_) =>
    case ObserveInput(r) =>
      if r.incident.Some? && r.id !in e.seen { ObserveActive(FamilyOf(e, r.incident.value), r); }
    case AdvanceInput(now) =>
      forall id | id in e.families ensures CompactFamily(AdvanceFamily(e.families[id], now), now, e.pinned).id == id {
        AdvanceActive(e.families[id], now);
        CompactActive(AdvanceFamily(e.families[id], now), now, e.pinned);
      }
  }

  /** One input requests an investigation of a family exactly when it activates it. */
  lemma StepRequests(e: Engine, input: Input, id: bytes)
    requires Named(e) && (id in e.families ==> id in Step(e, input).families)
    ensures Requests(StepReports(e, input), id) == Turned(FamilyOf(e, id).active, FamilyOf(Step(e, input), id).active)
    ensures FamilyOf(e, id).active ==> FamilyOf(Step(e, input), id).active
  {
    hide ObserveFamily, AdvanceFamily, CompactFamily, Survives, Released, LocationOf, Requests, AdvanceReports,
         FirstSatisfied;
    hide Containing, Topology, Note, IsEvidence;
    NoRequests(id);
    match input
    case PinInput(_) =>
    case ObserveInput(r) =>
      if ObserveReport(e, r).Some? { OneRequest(ObserveReport(e, r).value, id); }
      if r.incident.Some? && r.id !in e.seen { ObserveActive(FamilyOf(e, r.incident.value), r); }
    case AdvanceInput(now) =>
      AdvanceRequests(e, Listing(e.families.Keys), now, id);
      if id in e.families {
        AdvanceActive(e.families[id], now);
        CompactActive(AdvanceFamily(e.families[id], now), now, e.pinned);
      }
  }

  ghost function RunReports(e: Engine, inputs: seq<Input>): seq<Report> {
    if inputs == [] then []
    else RunReports(e, inputs[..|inputs| - 1]) + StepReports(Run(e, inputs[..|inputs| - 1]), inputs[|inputs| - 1])
  }

  /** From when a run first creates a family, no Advance of it drops that family. */
  ghost predicate KeepsFamily(e: Engine, inputs: seq<Input>, id: bytes) {
    forall n :: 0 <= n < |inputs| && id in Run(e, inputs[..n]).families ==>
      id in Step(Run(e, inputs[..n]), inputs[n]).families
  }

  lemma KeepsPrefix(e: Engine, inputs: seq<Input>, id: bytes, n: nat)
    requires KeepsFamily(e, inputs, id) && n <= |inputs|
    ensures KeepsFamily(e, inputs[..n], id)
  {
    hide Step, Run;
    forall m | 0 <= m < n && id in Run(e, inputs[..n][..m]).families
      ensures id in Step(Run(e, inputs[..n][..m]), inputs[..n][m]).families
    {
      assert inputs[..n][..m] == inputs[..m];
    }
  }

  lemma {:induction false} RunKeepsNames(e: Engine, inputs: seq<Input>)
    requires Named(e)
    ensures Named(Run(e, inputs))
  {
    if inputs != [] {
      RunKeepsNames(e, inputs[..|inputs| - 1]);
      StepKeepsNames(Run(e, inputs[..|inputs| - 1]), inputs[|inputs| - 1]);
    }
  }

  /**
   * While a family is held its investigation is requested at most once, whatever mix of observations, advances and
   * compactions crosses the threshold, and it has been requested exactly if it is active.
   */
  lemma {:induction false} RequestedOnce(e: Engine, inputs: seq<Input>, id: bytes)
    requires Named(e) && KeepsFamily(e, inputs, id)
    ensures Requests(RunReports(e, inputs), id) == Turned(FamilyOf(e, id).active, FamilyOf(Run(e, inputs), id).active)
    ensures FamilyOf(e, id).active ==> FamilyOf(Run(e, inputs), id).active
  {
    hide Requests, Step, StepReports, FamilyOf;
    NoRequests(id);
    if inputs != [] {
      var n := |inputs| - 1;
      KeepsPrefix(e, inputs, id, n);
      RequestedOnce(e, inputs[..n], id);
      RunKeepsNames(e, inputs[..n]);
      assert id in Run(e, inputs[..n]).families ==> id in Step(Run(e, inputs[..n]), inputs[n]).families;
      StepRequests(Run(e, inputs[..n]), inputs[n], id);
      RequestsAppend(RunReports(e, inputs[..n]), StepReports(Run(e, inputs[..n]), inputs[n]), id);
    }
  }

  // ---------------------------------------------------------------- nothing moves unannounced

  /** The report tells of the context version a family now has, and that it is new. */
  predicate Announces(x: Report, id: bytes, version: nat) {
    x.incident == id && x.contextVersion == version && (x.requested || x.contextUpdated)
  }

  lemma {:induction false} ReportedByFamily(e: Engine, ids: seq<bytes>, now: int, id: bytes, x: Report)
    requires id in ids && id in e.families && x in FamilyReports(e.families[id], now)
    ensures x in AdvanceReports(e, ids, now)
  {
    hide FamilyReports;
    var n := |ids| - 1;
    assert ids == ids[..n] + [ids[n]];
    if id != ids[n] { ReportedByFamily(e, ids[..n], now, id, x); }
  }

  lemma AdvanceAnnounces(f: Family, now: int)
    requires AdvanceFamily(f, now).contextVersion != f.contextVersion
    ensures exists x :: x in FamilyReports(f, now) && Announces(x, f.id, AdvanceFamily(f, now).contextVersion)
  {
    var g := AdvanceFamily(f, now);
    AdvanceActive(f, now);
    hide AdvanceFamily, QuietReports, FirstSatisfied, Satisfied;
    var x := ReportOf(g, RequestedAt(f, g), false, true, false, false, false);
    assert FamilyReports(f, now)[0] == x;
    assert x in FamilyReports(f, now) && Announces(x, f.id, g.contextVersion);
  }

  /** The version an agent sees of a family never changes without a report that says so and carries it. */
  lemma VersionChangesAreReported(e: Engine, input: Input, id: bytes)
    requires Named(e) && id in Step(e, input).families
    requires Step(e, input).families[id].contextVersion != FamilyOf(e, id).contextVersion
    ensures exists x :: x in StepReports(e, input) && Announces(x, id, Step(e, input).families[id].contextVersion)
  {
    hide ObserveFamily, AdvanceFamily, CompactFamily, Survives, Released, LocationOf, AdvanceReports, FamilyReports,
         Announces;
    hide Containing, Topology, Note, IsEvidence;
    match input
    case PinInput(_) =>
    case ObserveInput(r) =>
      ObserveActive(FamilyOf(e, id), r);
      ObserveAnnounces(FamilyOf(e, id), r);
      assert StepReports(e, input) == [Observation(FamilyOf(e, id), r)];
    case AdvanceInput(now) =>
      AdvanceActive(e.families[id], now);
      CompactActive(AdvanceFamily(e.families[id], now), now, e.pinned);
      AdvanceAnnounces(e.families[id], now);
      var x :| x in FamilyReports(e.families[id], now) && Announces(x, id, AdvanceFamily(e.families[id], now).contextVersion);
      ReportedByFamily(e, Listing(e.families.Keys), now, id, x);
  }

  lemma ObserveAnnounces(f: Family, r: Record)
    requires ObserveFamily(f, r).contextVersion != f.contextVersion
    ensures Announces(Observation(f, r), f.id, ObserveFamily(f, r).contextVersion)
  {
    ObserveActive(f, r);
    hide ObserveFamily, Containing, Topology, Note, IsEvidence;
  }

  // ---------------------------------------------------------------- duplicates repeat

  ghost predicate Remembers(e: Engine, inputs: seq<Input>, id: bytes) {
    forall n :: 0 <= n <= |inputs| ==> id in Run(e, inputs[..n]).seen
  }

  lemma StepKeepsLocation(e: Engine, input: Input, id: bytes)
    requires id in e.seen && id in Step(e, input).seen
    ensures Step(e, input).seen[id] == e.seen[id]
  {
    hide ObserveFamily, AdvanceFamily, CompactFamily, Survives, Released, LocationOf;
  }

  lemma {:induction false} LocationIsKept(e: Engine, inputs: seq<Input>, id: bytes)
    requires Remembers(e, inputs, id)
    ensures id in e.seen && id in Run(e, inputs).seen && Run(e, inputs).seen[id] == e.seen[id]
  {
    hide Step;
    assert inputs[..|inputs|] == inputs && Run(e, inputs[..0]) == e;
    if inputs != [] {
      var n := |inputs| - 1;
      forall m | 0 <= m <= n ensures id in Run(e, inputs[..n][..m]).seen { assert inputs[..n][..m] == inputs[..m]; }
      LocationIsKept(e, inputs[..n], id);
      StepKeepsLocation(Run(e, inputs[..n]), inputs[n], id);
    }
  }

  lemma FamilyIsNamed(e: Engine, id: bytes)
    requires Backed(e)
    ensures FamilyOf(e, id).id == id
  {
  }

  /**
   * As long as its identity is remembered, a record offered again is reported as a duplicate with the lateness and the
   * classification of its first report, however far the watermark has moved, and requests and changes nothing.
   */
  lemma DuplicatesRepeat(before: seq<Input>, r: Record, inputs: seq<Input>)
    requires r.incident.Some? && r.id !in Run(EMPTY, before).seen
    requires Remembers(Observe(Run(EMPTY, before), r), inputs, r.id)
    ensures var e := Run(EMPTY, before);
            var first, later := ObserveReport(e, r).value, Run(Observe(e, r), inputs);
            && Observe(later, r) == later && ObserveReport(later, r).Some?
            && var again := ObserveReport(later, r).value;
            && again.duplicate && !again.requested && !again.contextUpdated && again.incident == r.incident.value
            && again.late == first.late && again.evidenceOnly == first.evidenceOnly
  {
    hide Step, ObserveFamily, Note, Containing, Topology, Run, Remembers, IsEvidence, Known;
    var e := Run(EMPTY, before);
    EmptyIsBacked();
    RememberedIsHeld(EMPTY, before);
    ObserveKeepsBacked(e, r);
    RememberedIsHeld(Observe(e, r), inputs);
    FamilyIsNamed(e, r.incident.value);
    LocationIsKept(Observe(e, r), inputs, r.id);
  }
}
