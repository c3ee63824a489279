/**
 * The episodes of a family that has released records: shells first, then the fold of what is retained, whose first
 * episode may keep an earlier start than its retained records have.
 */
module IncidentTiers {
  import opened Basics
  import opened IncidentModel
  import opened IncidentFold
  import opened IncidentRuns
  import opened IncidentCompaction

  /** How many leading episodes retain no record. */
  function Spent(eps: seq<Episode>, o: seq<Record>): int {
    |eps| - |Fold(o)|
  }

  ghost predicate LiveAs(eps: seq<Episode>, o: seq<Record>, j: nat)
    requires j < |Fold(o)| <= |eps|
  {
    var p, g := eps[Spent(eps, o) + j], Fold(o)[j];
    p == g.(first := p.first) && p.first <= g.first && (j > 0 ==> p.first == g.first)
  }

  ghost predicate Tiered(eps: seq<Episode>, o: seq<Record>) {
    && Tidy(o) && StrictlySorted(eps) && |Fold(o)| <= |eps|
    && (forall i :: 0 <= i < Spent(eps, o) ==> eps[i] == ShellOf(eps[i]))
    && (forall j :: 0 <= j < |Fold(o)| ==> LiveAs(eps, o, j))
  }

  /** The fold under another start of its first episode. */
  function Lifted(folded: seq<Episode>, start: int): seq<Episode> {
    if folded == [] then [] else [folded[0].(first := start)] + folded[1..]
  }

  function Early(a: int, b: int): int {
    if a < b then a else b
  }

  lemma FoldRecords(o: seq<Record>, j: nat)
    requires Tidy(o) && j < |Fold(o)|
    ensures Fold(o)[j].records != map[]
  {
    var id := SomeMember(o, j);
  }

  lemma ShellsAreEmpty(eps: seq<Episode>, o: seq<Record>)
    requires Tiered(eps, o)
    ensures forall i :: 0 <= i < Spent(eps, o) ==> eps[i].records == map[]
  {
    hide Fold, Tidy, StrictlySorted;
    forall i | 0 <= i < Spent(eps, o) ensures eps[i].records == map[] { assert eps[i] == ShellOf(eps[i]); }
  }

  lemma TieredIsLive(eps: seq<Episode>, o: seq<Record>)
    requires Tiered(eps, o)
    ensures LiveIsFold(eps, o)
    ensures |Live(eps)| == |Fold(o)| && forall j :: 0 <= j < |Fold(o)| ==> Live(eps)[j] == Spent(eps, o) + j
  {
    hide Fold, Tidy, StrictlySorted, Live;
    var n := Spent(eps, o);
    ShellsAreEmpty(eps, o);
    var l: seq<nat> := seq(|Fold(o)|, j requires 0 <= j < |Fold(o)| => n + j);
    forall j | 0 <= j < |l|
      ensures l[j] < |eps| && eps[l[j]].records != map[]
    {
      FoldRecords(o, j);
      assert LiveAs(eps, o, j);
    }
    forall i: nat | i < |eps| && eps[i].records != map[] ensures i in l {
      assert l[i - n] == i;
    }
    LiveUnique(eps, l);
    forall j | 0 <= j < |l|
      ensures var p := eps[l[j]];
              p.records == Fold(o)[j].records && p.deployment == Fold(o)[j].deployment && p.first <= Fold(o)[j].first
    {
      assert LiveAs(eps, o, j);
    }
    LiveIsFoldBy(eps, o, l);
  }

  // ---------------------------------------------------------------- refolding after an out-of-order arrival

  lemma {:induction false} AssignedBeyondShells(eps: seq<Episode>, folded: seq<Episode>, n: nat, id: bytes)
    requires |eps| == n + |folded| && (forall i :: 0 <= i < n ==> eps[i].records == map[])
    requires forall j :: 0 <= j < |folded| ==> eps[n + j].records == folded[j].records
    ensures Assigned(eps, id) == var at := Assigned(folded, id); if at.None? then None else Some(n + at.value)
  {
    if folded != [] {
      var m := |folded| - 1;
      AssignedBeyondShells(eps[..|eps| - 1], folded[..m], n, id);
      assert eps[|eps| - 1].records == folded[m].records;
    } else {
      NoneAssigned(eps, id);
    }
  }

  lemma {:induction false} NoneAssigned(eps: seq<Episode>, id: bytes)
    requires forall i :: 0 <= i < |eps| ==> eps[i].records == map[]
    ensures Assigned(eps, id) == None
  {
    if eps != [] { NoneAssigned(eps[..|eps| - 1], id); }
  }

  /** A cursor over the fold, counted from before the shells. */
  function Beyond(n: nat, cursor: nat): nat {
    if cursor == 0 then 0 else n + cursor
  }

  lemma CandidateBeyond(eps: seq<Episode>, folded: seq<Episode>, n: nat, g: Episode, cursor: nat, i: nat)
    requires forall id :: Assigned(eps, id) == var at := Assigned(folded, id); if at.None? then None else Some(n + at.value)
    ensures Candidate(eps, g, Beyond(n, cursor), i) <==> i >= n && Candidate(folded, g, cursor, i - n)
  {
    hide Assigned;
    if Candidate(eps, g, Beyond(n, cursor), i) {
      var id :| id in g.records && Assigned(eps, id) == Some(i);
      assert Assigned(folded, id) == Some(i - n);
    }
    if i >= n && Candidate(folded, g, cursor, i - n) {
      var id :| id in g.records && Assigned(folded, id) == Some(i - n);
      assert Assigned(eps, id) == Some(i);
    }
  }

  lemma MatchBeyond(eps: seq<Episode>, folded: seq<Episode>, n: nat, g: Episode, cursor: nat)
    requires forall id :: Assigned(eps, id) == var at := Assigned(folded, id); if at.None? then None else Some(n + at.value)
    ensures Match(eps, g, Beyond(n, cursor)) == var m := Match(folded, g, cursor); if m.None? then None else Some(n + m.value)
  {
    hide Assigned, Candidate, Match, Beyond;
    var m, k := Match(folded, g, cursor), Match(eps, g, Beyond(n, cursor));
    forall i: nat ensures Candidate(eps, g, Beyond(n, cursor), i) <==> i >= n && Candidate(folded, g, cursor, i - n) {
      CandidateBeyond(eps, folded, n, g, cursor, i);
    }
    assert Matches(folded, g, cursor, m) && Matches(eps, g, Beyond(n, cursor), k);
    if m.Some? { assert Candidate(eps, g, Beyond(n, cursor), n + m.value); }
    if k.Some? { assert Candidate(folded, g, cursor, k.value - n); }
  }

  /** The start the first live episode has after the refold. */
  function StartAfter(eps: seq<Episode>, o: seq<Record>, x: Record): int
    requires o != [] && 0 <= Spent(eps, o) < |eps| && |Fold(Inserted(o, x))| > 0 && |Inserted(o, x)| > 1
  {
    var g := Fold(Inserted(o, x))[0];
    if Rank(o, x) > 0 || !Starts(Inserted(o, x), 1) then Early(eps[Spent(eps, o)].first, g.first) else g.first
  }

  /** The record would begin an episode of its own in front of one that has lost its own beginning. */
  ghost predicate Tears(eps: seq<Episode>, o: seq<Record>, x: Record) {
    && o != [] && Rank(o, x) == 0 && 0 <= Spent(eps, o) < |eps|
    && eps[Spent(eps, o)].first < o[0].eventTime && Gap(x, o[0])
  }

  lemma InsertedTidy(o: seq<Record>, x: Record)
    requires Tidy(o) && Fresh(o, x) && x.observedTime >= x.eventTime
    ensures Tidy(Inserted(o, x)) && |Inserted(o, x)| == |o| + 1
    ensures Inserted(o, x)[Rank(o, x)] == x
    ensures forall k :: 0 <= k < |o| ==> Inserted(o, x)[Shift(o, x, k)] == o[k]
  {
    hide Rank, Sorted, Distinct;
    InsertKeepsOrder(o, x);
    forall r | r in Inserted(o, x) ensures r.observedTime >= r.eventTime {
      if r != x {
        var k :| 0 <= k < |o| && o[k] == r;
      }
    }
  }

  lemma FoldNotEmpty(o: seq<Record>)
    requires o != []
    ensures Fold(o) != []
  {
  }

  lemma FirstStart(o: seq<Record>)
    requires Tidy(o) && o != []
    ensures Fold(o) != [] && Ord(o, 0) == 0 && Fold(o)[0].first == o[0].eventTime
    ensures Fold(o)[0].deployment == o[0].deployment
  {
    FoldNotEmpty(o);
    FirstOrd(o);
    var k := EpisodeStart(o, 0);
    hide Fold, Ord;
    assert k == 0;
  }

  /** The episode that holds the oldest record of the former order is the first one to adopt. */
  lemma FirstHolds(o: seq<Record>, x: Record)
    requires Tidy(o) && o != [] && Fresh(o, x) && x.observedTime >= x.eventTime
    requires Rank(o, x) > 0 || !Starts(Inserted(o, x), 1)
    ensures Ord(Inserted(o, x), Shift(o, x, 0)) == 0
    ensures Candidate(Fold(o), Fold(Inserted(o, x))[0], 0, 0)
  {
    var t := Inserted(o, x);
    InsertedTidy(o, x);
    FirstStart(o);
    FirstStart(t);
    hide Fold, Ord, Starts, Inserted, Rank, Candidate;
    if Rank(o, x) == 0 { OrdConstant(t, 0, 1); }
    RecordIsCandidate(o, x, 0, 0);
  }

  ghost predicate Refolds(eps: seq<Episode>, o: seq<Record>, x: Record) {
    Tiered(eps, o) && o != [] && Fresh(o, x) && x.observedTime >= x.eventTime && !Tears(eps, o, x)
  }

  /** Some record of the former first episode is in the first episode of the refold. */
  predicate KeepsFirst(o: seq<Record>, x: Record) {
    Rank(o, x) > 0 || (|Inserted(o, x)| > 1 && !Starts(Inserted(o, x), 1))
  }

  lemma TieredFolds(eps: seq<Episode>, o: seq<Record>)
    requires Tiered(eps, o) && o != []
    ensures 0 <= Spent(eps, o) < |eps| && Tidy(o) && StrictlySorted(eps) && LiveAs(eps, o, 0)
    ensures eps[Spent(eps, o)].first <= Fold(o)[0].first == o[0].eventTime && Fold(o)[0].deployment == o[0].deployment
  {
    FirstStart(o);
  }

  /** Without a tear, whoever begins in front of the first live episode finds it untouched. */
  lemma FirstUntouched(eps: seq<Episode>, o: seq<Record>, x: Record)
    requires Refolds(eps, o, x) && !KeepsFirst(o, x)
    ensures 0 <= Spent(eps, o) < |eps| && eps[Spent(eps, o)].first == Fold(o)[0].first
  {
    TieredFolds(eps, o);
    InsertedTidy(o, x);
    StartsAtGap(Inserted(o, x), 1);
    hide Starts, Inserted, Fold, Tidy, LiveAs, Rank;
    assert Inserted(o, x)[Shift(o, x, 0)] == o[0];
  }

  lemma RefoldFacts(eps: seq<Episode>, o: seq<Record>, x: Record)
    requires Refolds(eps, o, x)
    ensures |Inserted(o, x)| > 1 && Fold(Inserted(o, x)) != [] && 0 <= Spent(eps, o) < |eps| && |Fold(o)| > 0
    ensures StartAfter(eps, o, x) <= Fold(Inserted(o, x))[0].first
  {
    TieredFolds(eps, o);
    InsertedTidy(o, x);
    FoldNotEmpty(Inserted(o, x));
    FoldNotEmpty(o);
    hide Fold, Inserted, Starts, Tiered;
  }

  lemma LiftedAt(folded: seq<Episode>, start: int, k: nat)
    requires k < |folded|
    ensures Lifted(folded, start)[k] == if k == 0 then folded[0].(first := start) else folded[k]
    ensures |Lifted(folded, start)| == |folded|
  {
  }

  /** What one episode of the refold becomes when it adopts the m-th live start. */
  lemma AdoptsLifted(eps: seq<Episode>, o: seq<Record>, x: Record, k: nat, m: nat)
    requires Refolds(eps, o, x) && k < |Fold(Inserted(o, x))|
    requires Match(Fold(o), Fold(Inserted(o, x))[k], AdoptAll(Fold(o), Fold(Inserted(o, x))[..k]).cursor) == Some(m)
    requires KeepsFirst(o, x) ==> (k == 0 <==> m == 0)
    ensures |Inserted(o, x)| > 1 && 0 <= Spent(eps, o) && Spent(eps, o) + m < |eps|
    ensures Adopt(Fold(Inserted(o, x))[k], eps[Spent(eps, o) + m]) ==
              Lifted(Fold(Inserted(o, x)), StartAfter(eps, o, x))[k]
  {
    AdoptedStart(o, x, k, m);
    RefoldFacts(eps, o, x);
    LiftedAt(Fold(Inserted(o, x)), StartAfter(eps, o, x), k);
    assert LiveAs(eps, o, m);
    if !KeepsFirst(o, x) { FirstUntouched(eps, o, x); }
    hide Fold, Inserted, Match, AdoptAll, Starts, Rank, Tiered, Lifted;
  }

  lemma FirstMatch(eps: seq<Episode>, o: seq<Record>, x: Record)
    requires Refolds(eps, o, x) && KeepsFirst(o, x) && Fold(Inserted(o, x)) != []
    ensures Match(Fold(o), Fold(Inserted(o, x))[0], 0) == Some(0)
  {
    hide Candidate, Match, Fold, Inserted, Rank, Starts, Tiered, StrictlySorted;
    RefoldIsFresh(eps, o, x);
    FirstHolds(o, x);
    assert Matches(Fold(o), Fold(Inserted(o, x))[0], 0, Match(Fold(o), Fold(Inserted(o, x))[0], 0));
  }

  lemma ShiftedAssignments(eps: seq<Episode>, o: seq<Record>)
    requires Tiered(eps, o)
    ensures forall id :: Assigned(eps, id) == var at := Assigned(Fold(o), id); if at.None? then None else Some(Spent(eps, o) + at.value)
  {
    hide Fold, Tidy, StrictlySorted, Assigned;
    ShellsAreEmpty(eps, o);
    forall j | 0 <= j < |Fold(o)|
      ensures eps[Spent(eps, o) + j].records == Fold(o)[j].records
    {
      assert LiveAs(eps, o, j);
    }
    forall id
      ensures Assigned(eps, id) == var at := Assigned(Fold(o), id); if at.None? then None else Some(Spent(eps, o) + at.value)
    {
      AssignedBeyondShells(eps, Fold(o), Spent(eps, o), id);
    }
  }

  /** How adoption over shells and a torn start goes along with adoption over the plain fold. */
  ghost predicate GoesAlong(eps: seq<Episode>, o: seq<Record>, x: Record, k: nat, a: Adoption, b: Adoption)
    requires Refolds(eps, o, x) && k <= |Fold(Inserted(o, x))| && |Inserted(o, x)| > 1 && 0 <= Spent(eps, o) < |eps|
  {
    && a.episodes == Lifted(Fold(Inserted(o, x)), StartAfter(eps, o, x))[..k]
    && a.cursor == Beyond(Spent(eps, o), b.cursor) && (forall i :: i in a.adopted ==> i >= Spent(eps, o))
    && (KeepsFirst(o, x) && k > 0 ==> b.cursor > 0) && (k == 0 ==> b.cursor == 0)
  }

  lemma {:induction false} AdoptionGoesAlong(eps: seq<Episode>, o: seq<Record>, x: Record, k: nat)
    requires Refolds(eps, o, x) && k <= |Fold(Inserted(o, x))| && |Inserted(o, x)| > 1 && 0 <= Spent(eps, o) < |eps|
    ensures GoesAlong(eps, o, x, k, AdoptAll(eps, Fold(Inserted(o, x))[..k]), AdoptAll(Fold(o), Fold(Inserted(o, x))[..k]))
  {
    hide Fold, Inserted, Rank, Starts, Match, Lifted, StartAfter, AdoptNext, AdoptAll, Refolds, KeepsFirst, GoesAlong;
    if k == 0 {
      AlongAtStart(eps, o, x);
    } else {
      var g := Fold(Inserted(o, x));
      AdoptionGoesAlong(eps, o, x, k - 1);
      AdoptAt(eps, g, k - 1);
      AdoptAt(Fold(o), g, k - 1);
      OneMoreAlong(eps, o, x, k - 1, AdoptAll(eps, g[..k - 1]), AdoptAll(Fold(o), g[..k - 1]));
    }
  }

  lemma AlongAtStart(eps: seq<Episode>, o: seq<Record>, x: Record)
    requires Refolds(eps, o, x) && |Inserted(o, x)| > 1 && 0 <= Spent(eps, o) < |eps|
    ensures GoesAlong(eps, o, x, 0, AdoptAll(eps, Fold(Inserted(o, x))[..0]),
                      AdoptAll(Fold(o), Fold(Inserted(o, x))[..0]))
  {
    RefoldFacts(eps, o, x);
    hide Fold, Inserted, Rank, Starts, StartAfter, Refolds, KeepsFirst;
  }

  lemma AdoptNextBy(prior: seq<Episode>, a: Adoption, g: Episode, m: Option<nat>)
    requires Match(prior, g, a.cursor) == m && (m.Some? ==> m.value < |prior|)
    ensures AdoptNext(prior, a, g) ==
              if m.None? then Adoption(a.episodes + [g], a.adopted, a.cursor)
              else Adoption(a.episodes + [Adopt(g, prior[m.value])], a.adopted + {m.value}, m.value + 1)
  {
    hide Match, Adopt;
  }

  /** Both adoptions find the same episode. */
  lemma SameMatch(eps: seq<Episode>, o: seq<Record>, x: Record, k: nat, b: Adoption)
    requires Refolds(eps, o, x) && k < |Fold(Inserted(o, x))| && |Inserted(o, x)| > 1 && 0 <= Spent(eps, o) < |eps|
    requires (k == 0 ==> b.cursor == 0) && (KeepsFirst(o, x) && k > 0 ==> b.cursor > 0)
    ensures var g, m := Fold(Inserted(o, x))[k], Match(Fold(o), Fold(Inserted(o, x))[k], b.cursor);
            &&
               Match(eps, g, Beyond(Spent(eps, o), b.cursor)) == (if m.None? then None else Some(Spent(eps, o) + m.value))
            && (KeepsFirst(o, x) ==> (k == 0 ==> m == Some(0)) && (k > 0 && m.Some? ==> m.value > 0))
  {
    hide Fold, Inserted, Rank, Starts, Match, Refolds, Tiered, Assigned, KeepsFirst;
    var g := Fold(Inserted(o, x));
    FoldedIsTiered(eps, o, x);
    ShiftedAssignments(eps, o);
    MatchBeyond(eps, Fold(o), Spent(eps, o), g[k], b.cursor);
    if KeepsFirst(o, x) && k == 0 { FirstMatch(eps, o, x); }
    MatchAtCursor(Fold(o), g[k], b.cursor);
  }

  /** And the adoption over shells gives what it finds the lifted start. */
  lemma SameAdopt(eps: seq<Episode>, o: seq<Record>, x: Record, k: nat, b: Adoption)
    requires Refolds(eps, o, x) && k < |Fold(Inserted(o, x))| && |Inserted(o, x)| > 1 && 0 <= Spent(eps, o) < |eps|
    requires b == AdoptAll(Fold(o), Fold(Inserted(o, x))[..k]) && o != []
    requires var m := Match(Fold(o), Fold(Inserted(o, x))[k], b.cursor);
             KeepsFirst(o, x) ==> (k == 0 ==> m == Some(0)) && (k > 0 && m.Some? ==> m.value > 0)
    ensures var g, m := Fold(Inserted(o, x))[k], Match(Fold(o), Fold(Inserted(o, x))[k], b.cursor);
            var lifted := Lifted(Fold(Inserted(o, x)), StartAfter(eps, o, x));
            && |lifted| == |Fold(Inserted(o, x))|
            && if m.Some? then m.value < |Fold(o)| && Spent(eps, o) + m.value < |eps| && Adopt(g, eps[Spent(eps, o) + m.value]) == lifted[k]
               else lifted[k] == g
  {
    hide Fold, Inserted, Rank, Starts, Match, Lifted, Refolds, AdoptAll, Adopt, Tiered, StartAfter, KeepsFirst, Fresh;
    var g := Fold(Inserted(o, x));
    var m := Match(Fold(o), g[k], b.cursor);
    RefoldIsFresh(eps, o, x);
    LiftedAt(g, StartAfter(eps, o, x), k);
    PlainStart(eps, o, x);
    if m.Some? {
      AdoptedStart(o, x, k, m.value);
      AdoptsLifted(eps, o, x, k, m.value);
    } else if k == 0 {
      SameFirst(g[0]);
    }
  }

  lemma SameFirst(g: Episode)
    ensures g.(first := g.first) == g
  {
  }

  lemma FoldedIsTiered(eps: seq<Episode>, o: seq<Record>, x: Record)
    requires Refolds(eps, o, x)
    ensures Tiered(eps, o)
  {
  }

  lemma RefoldNotEmpty(eps: seq<Episode>, o: seq<Record>, x: Record)
    requires Refolds(eps, o, x)
    ensures o != []
  {
  }

  lemma RefoldIsFresh(eps: seq<Episode>, o: seq<Record>, x: Record)
    requires Refolds(eps, o, x)
    ensures Fresh(o, x) && Tidy(o) && x.observedTime >= x.eventTime
  {
  }

  lemma OneMoreAlong(eps: seq<Episode>, o: seq<Record>, x: Record, k: nat, a: Adoption, b: Adoption)
    requires Refolds(eps, o, x) && k < |Fold(Inserted(o, x))| && |Inserted(o, x)| > 1 && 0 <= Spent(eps, o) < |eps|
    requires GoesAlong(eps, o, x, k, a, b) && b == AdoptAll(Fold(o), Fold(Inserted(o, x))[..k])
    ensures GoesAlong(eps, o, x, k + 1, AdoptNext(eps, a, Fold(Inserted(o, x))[k]), AdoptNext(Fold(o), b, Fold(Inserted(o, x))[k]))
  {
    hide Fold, Inserted, Rank, Starts, Match, Lifted, Refolds, AdoptAll, Adopt, Tiered, Assigned, StartAfter,
         KeepsFirst, AdoptNext;
    var g, n := Fold(Inserted(o, x)), Spent(eps, o);
    RefoldFacts(eps, o, x);
    RefoldNotEmpty(eps, o, x);
    var lifted := Lifted(g, StartAfter(eps, o, x));
    SameMatch(eps, o, x, k, b);
    SameAdopt(eps, o, x, k, b);
    var m := Match(Fold(o), g[k], b.cursor);
    AdoptNextBy(Fold(o), b, g[k], m);
    AdoptNextBy(eps, a, g[k], if m.None? then None else Some(n + m.value));
    assert lifted[..k + 1] == lifted[..k] + [lifted[k]];
  }

  lemma PlainStart(eps: seq<Episode>, o: seq<Record>, x: Record)
    requires Refolds(eps, o, x) && |Inserted(o, x)| > 1 && 0 <= Spent(eps, o) < |eps|
    ensures Fold(Inserted(o, x)) != [] && (!KeepsFirst(o, x) ==> StartAfter(eps, o, x) == Fold(Inserted(o, x))[0].first)
  {
    RefoldFacts(eps, o, x);
  }

  lemma MatchAtCursor(prior: seq<Episode>, g: Episode, cursor: nat)
    ensures Match(prior, g, cursor).Some? ==> Match(prior, g, cursor).value >= cursor
  {
    hide Match;
    assert Matches(prior, g, cursor, Match(prior, g, cursor));
  }

  // ---------------------------------------------------------------- shells stay, and the sort puts them in front

  lemma {:induction false} ShellsOfTiered(eps: seq<Episode>, adopted: set<nat>, held: set<bytes>, n: nat, k: nat)
    requires n <= |eps| && k <= |eps| && (forall i :: i in adopted ==> i >= n)
    requires forall i :: 0 <= i < n ==> eps[i] == ShellOf(eps[i])
    requires forall i :: n <= i < |eps| ==> RetainsAnyOf(eps[i], held)
    ensures Shells(eps[..k], adopted, held) == eps[..if k < n then k else n]
  {
    if k > 0 {
      ShellsOfTiered(eps, adopted, held, n, k - 1);
      assert eps[..k][..k - 1] == eps[..k - 1];
      if k - 1 < n { assert eps[k - 1].records == map[] by { assert eps[k - 1] == ShellOf(eps[k - 1]); } }
    }
  }

  lemma StartsTransitive(a: Episode, b: Episode, c: Episode)
    requires StartsBefore(a, b) && StartsBefore(b, c)
    ensures StartsBefore(a, c)
  {
    if Less(a.deployment, b.deployment) && Less(b.deployment, c.deployment) {
      LessTransitive(a.deployment, b.deployment, c.deployment);
    }
  }

  lemma StartsEarlier(a: Episode, b: Episode, start: int)
    requires StartsBefore(a, b) && start <= a.first
    ensures StartsBefore(a.(first := start), b)
  {
  }

  /** A sorted run of shells in front of a sorted, lifted fold they all precede. */
  lemma TiersSorted(shells: seq<Episode>, folded: seq<Episode>, start: int)
    requires StrictlySorted(shells) && StrictlySorted(folded) && folded != [] && start <= folded[0].first
    requires forall i :: 0 <= i < |shells| ==> StartsBefore(shells[i], folded[0].(first := start))
    ensures StrictlySorted(shells + Lifted(folded, start))
  {
    hide StartsBefore;
    var lifted := Lifted(folded, start);
    var r := shells + lifted;
    forall j | 0 < j < |lifted| ensures StartsBefore(lifted[0], lifted[j]) {
      LiftedAt(folded, start, j);
      StartsEarlier(folded[0], folded[j], start);
    }
    forall i, j | 0 <= i < j < |lifted| ensures StartsBefore(lifted[i], lifted[j]) {
      LiftedAt(folded, start, i);
      LiftedAt(folded, start, j);
    }
    forall i, j | 0 <= i < |shells| && 0 <= j < |lifted| ensures StartsBefore(shells[i], lifted[j]) {
      LiftedAt(folded, start, 0);
      if j > 0 { StartsTransitive(shells[i], lifted[0], lifted[j]); }
    }
    forall i, j | 0 <= i < j < |r| ensures StartsBefore(r[i], r[j]) {
      if j >= |shells| && i < |shells| { assert StartsBefore(shells[i], lifted[j - |shells|]); }
      if i >= |shells| { assert StartsBefore(lifted[i - |shells|], lifted[j - |shells|]); }
    }
  }

  /** Every shell starts before the record that arrives. */
  ghost predicate ShellsBefore(eps: seq<Episode>, o: seq<Record>, x: Record) {
    forall i :: 0 <= i < Spent(eps, o) && i < |eps| ==> eps[i].first < x.eventTime
  }

  lemma ShellsPrecede(eps: seq<Episode>, o: seq<Record>, x: Record, i: nat)
    requires Refolds(eps, o, x) && ShellsBefore(eps, o, x) && i < Spent(eps, o) < |eps| && |Inserted(o, x)| > 1
    ensures Fold(Inserted(o, x)) != []
    ensures StartsBefore(eps[i], Fold(Inserted(o, x))[0].(first := StartAfter(eps, o, x)))
  {
    var t := Inserted(o, x);
    InsertedTidy(o, x);
    FirstStart(t);
    TieredFolds(eps, o);
    RefoldFacts(eps, o, x);
    assert StartsBefore(eps[i], eps[Spent(eps, o)]);
    if Rank(o, x) == 0 { assert t[0] == x; } else { assert t[0] == o[0]; }
    hide Fold, Starts, Inserted, Tiered, Rank;
  }

  lemma FoldSorted(t: seq<Record>)
    requires Tidy(t)
    ensures StrictlySorted(Fold(t))
  {
    hide Fold, StartsBefore, Tidy;
    forall i, j | 0 <= i < j < |Fold(t)| ensures StartsBefore(Fold(t)[i], Fold(t)[j]) { FoldStrictlySorted(t, i, j); }
  }

  lemma RetainedLive(eps: seq<Episode>, o: seq<Record>, held: set<bytes>, i: nat)
    requires Tiered(eps, o) && Spent(eps, o) <= i < |eps| && Ids(o) <= held
    ensures RetainsAnyOf(eps[i], held)
  {
    var j := i - Spent(eps, o);
    assert LiveAs(eps, o, j);
    FoldRetained(o, held, j);
  }

  lemma PrefixSorted(eps: seq<Episode>, n: nat)
    requires StrictlySorted(eps) && n <= |eps|
    ensures StrictlySorted(eps[..n])
  {
    hide StartsBefore;
  }

  /** The refold after an out-of-order arrival leaves the shells and makes the fold of the longer order behind them. */
  lemma RefoldIsTiered(eps: seq<Episode>, o: seq<Record>, x: Record)
    requires Refolds(eps, o, x) && ShellsBefore(eps, o, x) && 0 <= Spent(eps, o) < |eps| && |Inserted(o, x)| > 1
    ensures Fold(Inserted(o, x)) != []
    ensures Reconstruct(eps, Inserted(o, x)) ==
              eps[..Spent(eps, o)] + Lifted(Fold(Inserted(o, x)), StartAfter(eps, o, x))
    ensures StrictlySorted(eps[..Spent(eps, o)] + Lifted(Fold(Inserted(o, x)), StartAfter(eps, o, x)))
  {
    hide Fold, Inserted, Rank, Starts, Lifted, StartAfter, AdoptAll, Tidy, Shells, StableSort, StrictlySorted,
         StartsBefore, KeepsFirst,
         Ids, RetainsAnyOf, Tears;
    var t, n := Inserted(o, x), Spent(eps, o);
    RefoldFacts(eps, o, x);
    InsertedTidy(o, x);
    var g := Fold(t);
    var lifted := Lifted(g, StartAfter(eps, o, x));
    AdoptionGoesAlong(eps, o, x, |g|);
    assert g[..|g|] == g;
    LiftedAt(g, StartAfter(eps, o, x), 0);
    assert lifted[..|g|] == lifted;
    var a := AdoptAll(eps, g);
    IdsOfInserted(o, x);
    forall i | n <= i < |eps| ensures RetainsAnyOf(eps[i], Ids(t)) { RetainedLive(eps, o, Ids(t), i); }
    ShellsOfTiered(eps, a.adopted, Ids(t), n, |eps|);
    assert eps[..|eps|] == eps;
    PrefixSorted(eps, n);
    FoldSorted(t);
    forall i | 0 <= i < n
      ensures StartsBefore(eps[..n][i], g[0].(first := StartAfter(eps, o, x)))
    {
      ShellsPrecede(eps, o, x, i);
    }
    TiersSorted(eps[..n], g, StartAfter(eps, o, x));
    assert multiset(lifted + eps[..n]) == multiset(eps[..n] + lifted);
    SortOfPermutation(lifted + eps[..n], eps[..n] + lifted);
  }

  /** Shells and a lifted fold have the shape, if the start is no later than the fold's own. */
  lemma TiersAreTiered(shells: seq<Episode>, t: seq<Record>, start: int)
    requires Tidy(t) && Fold(t) != [] && start <= Fold(t)[0].first
    requires (forall i :: 0 <= i < |shells| ==> shells[i] == ShellOf(shells[i]))
    requires StrictlySorted(shells + Lifted(Fold(t), start))
    ensures Tiered(shells + Lifted(Fold(t), start), t) && Spent(shells + Lifted(Fold(t), start), t) == |shells|
  {
    hide Fold, StrictlySorted, Tidy;
    var eps := shells + Lifted(Fold(t), start);
    forall j | 0 <= j < |Fold(t)| ensures |Fold(t)| <= |eps| && LiveAs(eps, t, j) {
      LiftedAt(Fold(t), start, j);
      assert eps[|shells| + j] == Lifted(Fold(t), start)[j];
    }
    LiftedAt(Fold(t), start, 0);
  }

  // ---------------------------------------------------------------- extending

  /** Every shell lies wholly before the record that arrives. */
  ghost predicate ShellsBehind(eps: seq<Episode>, o: seq<Record>, t: int) {
    forall i :: 0 <= i < Spent(eps, o) && i < |eps| ==> eps[i].first < t && eps[i].latest < t && eps[i].lastActivity < t
  }

  lemma NewestInserted(o: seq<Record>, x: Record)
    requires Rank(o, x) == |o|
    ensures Inserted(o, x) == o + [x] && Fold(Inserted(o, x)) == FoldStep(Fold(o), x)
  {
    assert Inserted(o, x)[..|o|] == o;
  }

  lemma NewestIsLast(o: seq<Record>, x: Record)
    requires Tidy(o) && Fresh(o, x) && Rank(o, x) == |o| && o != []
    ensures Fold(o) != [] && forall j :: 0 <= j < |Fold(o)| ==> Fold(o)[j].first <= x.eventTime
  {
    RankSplits(o, x);
    FoldNotEmpty(o);
    forall j | 0 <= j < |Fold(o)| ensures Fold(o)[j].first <= x.eventTime {
      var k := EpisodeStart(o, j);
      assert SortsBefore(o[k], x);
    }
  }

  lemma ContributeUnder(p: Episode, g: Episode, x: Record)
    requires p == g.(first := p.first) && p.first <= g.first <= x.eventTime
    ensures Joins(p, x) == Joins(g, x)
    ensures Contribute(p, x) == Contribute(g, x).(first := p.first) && Contribute(g, x).first == g.first
  {
    hide WindowCount;
  }

  lemma LiftedReplace(folded: seq<Episode>, start: int, g: Episode)
    requires folded != []
    ensures var m := |folded| - 1;
            |Lifted(folded, start)| == |folded| &&
            Lifted(folded[..m] + [g], start) == Lifted(folded, start)[..m] + [if m == 0 then g.(first := start) else g]
  {
    var m := |folded| - 1;
    if m > 0 { assert (folded[..m] + [g])[1..] == folded[1..][..m - 1] + [g]; }
  }

  lemma LiftedSnoc(folded: seq<Episode>, start: int, g: Episode)
    requires folded != []
    ensures Lifted(folded + [g], start) == Lifted(folded, start) + [g]
  {
    assert (folded + [g])[1..] == folded[1..] + [g];
  }

  /** The newest record extends the lifted fold as it does the plain one. */
  lemma StepOfLifted(shells: seq<Episode>, folded: seq<Episode>, start: int, x: Record)
    requires folded != [] && start <= folded[0].first
    requires forall j :: 0 <= j < |folded| ==> folded[j].first <= x.eventTime
    ensures FoldStep(shells + Lifted(folded, start), x) == shells + Lifted(FoldStep(folded, x), start)
    ensures FoldStep(folded, x) != [] && FoldStep(folded, x)[0].first == folded[0].first
  {
    hide Lifted, Contribute, Joins, Begin;
    var m := |folded| - 1;
    var lifted := Lifted(folded, start);
    var eps := shells + lifted;
    LiftedAt(folded, start, m);
    assert eps[|eps| - 1] == lifted[m] && eps[..|eps| - 1] == shells + lifted[..m];
    ContributeUnder(lifted[m], folded[m], x);
    if Joins(folded[m], x) {
      var g := Contribute(folded[m], x);
      LiftedReplace(folded, start, g);
      assert shells + lifted[..m] + [Contribute(lifted[m], x)] == shells + (lifted[..m] + [Contribute(lifted[m], x)]);
    } else {
      LiftedSnoc(folded, start, Begin(x));
      assert eps + [Begin(x)] == shells + (lifted + [Begin(x)]);
    }
  }

  lemma LiveIsLifted(eps: seq<Episode>, o: seq<Record>, j: nat)
    requires Tiered(eps, o) && j < |Fold(o)| && 0 <= Spent(eps, o) < |eps|
    ensures |Lifted(Fold(o), eps[Spent(eps, o)].first)| == |Fold(o)|
    ensures eps[Spent(eps, o) + j] == Lifted(Fold(o), eps[Spent(eps, o)].first)[j]
  {
    hide Fold, Tidy, StrictlySorted;
    assert LiveAs(eps, o, j);
    LiftedAt(Fold(o), eps[Spent(eps, o)].first, j);
  }

  lemma TiersOf(eps: seq<Episode>, o: seq<Record>)
    requires Tiered(eps, o) && o != []
    ensures 0 <= Spent(eps, o) < |eps| && Fold(o) != []
    ensures eps == eps[..Spent(eps, o)] + Lifted(Fold(o), eps[Spent(eps, o)].first)
  {
    hide Fold, Tidy, StrictlySorted, Lifted;
    TieredFolds(eps, o);
    FoldNotEmpty(o);
    var n := Spent(eps, o);
    var lifted := Lifted(Fold(o), eps[n].first);
    LiveIsLifted(eps, o, 0);
    forall j | 0 <= j < |lifted| ensures eps[n..][j] == lifted[j] { LiveIsLifted(eps, o, j); }
    assert eps[n..] == lifted;
  }

  /** A record that joins a shell revives it. */
  lemma RevivesShell(p: Episode, x: Record)
    requires p == ShellOf(p) && p.first < x.eventTime && p.latest < x.eventTime && p.lastActivity < x.eventTime
    requires p.deployment == x.deployment && x.observedTime >= x.eventTime
    ensures Contribute(p, x) == Begin(x).(first := p.first)
  {
    hide WindowCount;
    OneInWindow(x.eventTime);
    assert p.eligible + [x.eventTime] == [x.eventTime] && p.times + [x.eventTime] == [x.eventTime];
  }

  lemma OneInWindow(t: int)
    ensures WindowCount([t], t) < THRESHOLD
  {
    assert [t][..0] == [];
  }

  // ---------------------------------------------------------------- one observation

  /** The episodes after a record is inserted, by whichever way. */
  ghost function EpisodesAfter(eps: seq<Episode>, o: seq<Record>, x: Record): seq<Episode> {
    if Rank(o, x) == |o| then FoldStep(eps, x) else Reconstruct(eps, Inserted(o, x))
  }

  /** The shape the episodes have afterwards: how many shells, and where the first live episode starts. */
  ghost predicate Becomes(eps: seq<Episode>, o: seq<Record>, x: Record, n: nat, start: int) {
    && n <= |eps| && Fold(Inserted(o, x)) != [] && start <= Fold(Inserted(o, x))[0].first
    && EpisodesAfter(eps, o, x) == eps[..n] + Lifted(Fold(Inserted(o, x)), start)
    && StrictlySorted(eps[..n] + Lifted(Fold(Inserted(o, x)), start))
  }

  ghost predicate Arrives(eps: seq<Episode>, o: seq<Record>, x: Record) {
    && Tiered(eps, o) && Fresh(o, x) && x.observedTime >= x.eventTime && !Tears(eps, o, x)
    && ShellsBehind(eps, o, x.eventTime)
  }

  lemma ExtendBecomes(eps: seq<Episode>, o: seq<Record>, x: Record)
    requires Arrives(eps, o, x) && o != [] && Rank(o, x) == |o|
    ensures 0 <= Spent(eps, o) < |eps| && Becomes(eps, o, x, Spent(eps, o), eps[Spent(eps, o)].first)
  {
    hide Fold, Inserted, StrictlySorted, Tears, FoldStep, Lifted, StartsBefore, Reconstruct, Tidy;
    TieredFolds(eps, o);
    TiersOf(eps, o);
    NewestInserted(o, x);
    NewestIsLast(o, x);
    var n, start := Spent(eps, o), eps[Spent(eps, o)].first;
    StepOfLifted(eps[..n], Fold(o), start, x);
    InsertedTidy(o, x);
    FoldSorted(Inserted(o, x));
    PrefixSorted(eps, n);
    ExtendPrecedes(eps, o, x);
    TiersSorted(eps[..n], Fold(Inserted(o, x)), start);
  }

  lemma ExtendPrecedes(eps: seq<Episode>, o: seq<Record>, x: Record)
    requires Arrives(eps, o, x) && o != [] && Rank(o, x) == |o| && 0 <= Spent(eps, o) < |eps|
    requires Fold(Inserted(o, x)) != []
    ensures forall i :: 0 <= i < Spent(eps, o) ==>
              StartsBefore(eps[..Spent(eps, o)][i], Fold(Inserted(o, x))[0].(first := eps[Spent(eps, o)].first))
  {
    TieredFolds(eps, o);
    InsertedTidy(o, x);
    FirstStart(o);
    FirstStart(Inserted(o, x));
    assert Inserted(o, x)[0] == o[0];
    hide Fold, Inserted, Tears, Tidy, Rank;
    forall i | 0 <= i < Spent(eps, o) ensures StartsBefore(eps[i], eps[Spent(eps, o)]) { }
  }

  lemma RebuildBecomes(eps: seq<Episode>, o: seq<Record>, x: Record)
    requires Arrives(eps, o, x) && Rank(o, x) < |o|
    ensures 0 <= Spent(eps, o) < |eps| && |Inserted(o, x)| > 1 && Fold(Inserted(o, x)) != []
    ensures Becomes(eps, o, x, Spent(eps, o), StartAfter(eps, o, x))
  {
    hide Fold, Inserted, StrictlySorted, Tears, FoldStep, Lifted, StartsBefore, Reconstruct, Tidy, Rank, StartAfter,
         Tiered;
    RefoldFacts(eps, o, x);
    RefoldIsTiered(eps, o, x);
  }

  /** With nothing retained, the record revives the last shell or begins behind it. */
  lemma FirstAgainBecomes(eps: seq<Episode>, x: Record) returns (n: nat, start: int)
    requires Arrives(eps, [], x)
    ensures Becomes(eps, [], x, n, start) && n <= |eps| <= n + 1
    ensures n < |eps| ==> start == eps[n].first && eps[n].deployment == x.deployment
    ensures n == |eps| ==> start == x.eventTime
  {
    NewestInserted([], x);
    var m := |eps|;
    assert Fold([x]) == [Begin(x)] by { assert [x][..0] == []; }
    assert [] + [x] == [x];
    if m > 0 && Joins(eps[m - 1], x) {
      assert eps[m - 1] == ShellOf(eps[m - 1]);
      RevivesShell(eps[m - 1], x);
      n, start := m - 1, eps[m - 1].first;
    } else {
      n, start := m, x.eventTime;
      assert eps[..m] == eps;
    }
    hide StrictlySorted, Begin, Contribute, Tears;
    assert EpisodesAfter(eps, [], x) == eps[..n] + Lifted([Begin(x)], start);
    PrefixSorted(eps, n);
    FoldSorted([x]);
    AgainPrecedes(eps, x, n, start);
    TiersSorted(eps[..n], [Begin(x)], start);
  }

  lemma AgainPrecedes(eps: seq<Episode>, x: Record, n: nat, start: int)
    requires Arrives(eps, [], x) && n <= |eps|
    requires (if n < |eps| then start == eps[n].first && eps[n].deployment == x.deployment else start == x.eventTime)
    ensures forall i :: 0 <= i < n ==> StartsBefore(eps[..n][i], Begin(x).(first := start))
  {
  }

  /** An arrival keeps the shape, the shells, and the identity of every episode begun before it. */
  ghost predicate Arrived(eps: seq<Episode>, o: seq<Record>, x: Record, after: seq<Episode>) {
    && Tiered(after, Inserted(o, x)) && (o != [] ==> Spent(after, Inserted(o, x)) == Spent(eps, o))
    && Spent(after, Inserted(o, x)) <= Spent(eps, o)
    && (forall i :: 0 <= i < Spent(after, Inserted(o, x)) && i < |after| ==> i < |eps| && after[i] == eps[i])
    && Frozen(eps, after, x.eventTime)
  }

  /** The first live episodes before and after are one identity, or neither began before the arrival. */
  ghost predicate SameStart(eps: seq<Episode>, o: seq<Record>, x: Record, start: int)
    requires 0 <= Spent(eps, o) < |eps| && Fold(Inserted(o, x)) != []
  {
    var p, g := eps[Spent(eps, o)], Fold(Inserted(o, x))[0];
    (start == p.first && g.deployment == p.deployment) || (start >= x.eventTime && p.first >= x.eventTime)
  }

  lemma NotFirstStart(eps: seq<Episode>, o: seq<Record>, x: Record)
    requires Arrives(eps, o, x) && o != [] && Rank(o, x) > 0
    ensures 0 <= Spent(eps, o) < |eps| && Fold(Inserted(o, x)) != []
    ensures eps[Spent(eps, o)].first <= Fold(Inserted(o, x))[0].first
    ensures Fold(Inserted(o, x))[0].deployment == eps[Spent(eps, o)].deployment
  {
    TieredFolds(eps, o);
    InsertedTidy(o, x);
    FirstStart(o);
    FirstStart(Inserted(o, x));
    assert Inserted(o, x)[0] == o[0];
    assert LiveAs(eps, o, 0);
    hide Fold, Inserted, Tidy, Rank, StrictlySorted;
  }

  lemma InFrontStart(eps: seq<Episode>, o: seq<Record>, x: Record)
    requires Arrives(eps, o, x) && o != [] && Rank(o, x) == 0
    ensures |Inserted(o, x)| > 1 && 0 <= Spent(eps, o) < |eps| && Fold(Inserted(o, x)) != []
    ensures SameStart(eps, o, x, StartAfter(eps, o, x))
  {
    var t := Inserted(o, x);
    RefoldFacts(eps, o, x);
    TieredFolds(eps, o);
    InsertedTidy(o, x);
    FirstStart(o);
    FirstStart(t);
    StartsAtGap(t, 1);
    RankSplits(o, x);
    OrderTotal(o[0], x);
    assert t[0] == x && t[1] == o[0] && LiveAs(eps, o, 0);
    if !KeepsFirst(o, x) { FirstUntouched(eps, o, x); }
    hide Fold, Starts, Inserted, Tidy, StrictlySorted, Rank;
  }

  predicate SameIds(a: Episode, b: Episode) {
    a.first == b.first && a.deployment == b.deployment
  }

  /** What is frozen behind n common episodes and one that is either the same or new on both sides is frozen. */
  lemma FrozenBehind(a: seq<Episode>, b: seq<Episode>, p: seq<Episode>, g: seq<Episode>, n: nat, t: int)
    requires |a| == n + |p| && |b| == n + |g| && p != [] && g != [] && Frozen(p, g, t)
    requires forall i :: 0 <= i < n ==> a[i] == b[i]
    requires SameIds(a[n], b[n]) || (a[n].first >= t && b[n].first >= t)
    requires (forall j :: 0 < j < |p| ==> SameIds(a[n + j], p[j]))
    requires (forall j :: 0 < j < |g| ==> SameIds(b[n + j], g[j]))
    ensures Frozen(a, b, t)
  {
    forall i | (0 <= i < |a| && a[i].first < t) || (0 <= i < |b| && b[i].first < t)
      ensures i < |a| && i < |b| && a[i].first == b[i].first && a[i].deployment == b[i].deployment
    {
      if i > n {
        var j := i - n;
        assert j < |p| ==> SameIds(a[n + j], p[j]);
        assert j < |g| ==> SameIds(b[n + j], g[j]);
      }
    }
  }

  lemma LiftedFrozen(eps: seq<Episode>, o: seq<Record>, x: Record, start: int)
    requires Arrives(eps, o, x) && o != [] && 0 <= Spent(eps, o) < |eps|
    requires Becomes(eps, o, x, Spent(eps, o), start) && SameStart(eps, o, x, start)
    ensures Frozen(eps, EpisodesAfter(eps, o, x), x.eventTime)
  {
    hide Inserted, StrictlySorted, Tears, EpisodesAfter, Tidy, Lifted, Rank, Fold, Frozen, LiveAs;
    InsertFreezes(o, x, x.eventTime);
    var n, g := Spent(eps, o), Fold(Inserted(o, x));
    var after := EpisodesAfter(eps, o, x);
    LiftedAt(g, start, 0);
    forall j | 0 < j < |Fold(o)| ensures SameIds(eps[n + j], Fold(o)[j]) { TieredAt(eps, o, j); }
    forall j | 0 < j < |g| ensures SameIds(after[n + j], g[j]) { LiftedAt(g, start, j); }
    FrozenBehind(eps, after, Fold(o), g, n, x.eventTime);
  }

  lemma TieredAt(eps: seq<Episode>, o: seq<Record>, j: nat)
    requires Tiered(eps, o) && 0 < j < |Fold(o)|
    ensures 0 <= Spent(eps, o) + j < |eps|
    ensures eps[Spent(eps, o) + j].first == Fold(o)[j].first
    ensures eps[Spent(eps, o) + j].deployment == Fold(o)[j].deployment
  {
    hide Fold, Tidy, StrictlySorted;
    assert LiveAs(eps, o, j);
  }

  lemma AgainFrozen(eps: seq<Episode>, x: Record, n: nat, start: int)
    requires Arrives(eps, [], x) && Becomes(eps, [], x, n, start) && n <= |eps| <= n + 1
    requires n < |eps| ==> start == eps[n].first && eps[n].deployment == x.deployment
    requires n == |eps| ==> start == x.eventTime
    ensures Frozen(eps, EpisodesAfter(eps, [], x), x.eventTime)
  {
    NewestInserted([], x);
    hide StrictlySorted, Tears, EpisodesAfter, Tidy;
  }

  lemma BecomesArrived(eps: seq<Episode>, o: seq<Record>, x: Record, n: nat, start: int)
    requires Arrives(eps, o, x) && Becomes(eps, o, x, n, start) && n <= Spent(eps, o)
    requires (o != [] ==> n == Spent(eps, o))
    requires Frozen(eps, EpisodesAfter(eps, o, x), x.eventTime)
    ensures Arrived(eps, o, x, EpisodesAfter(eps, o, x))
  {
    hide Fold, Inserted, StrictlySorted, Tears, EpisodesAfter, Lifted, Frozen, LiveAs, Rank;
    InsertedTidy(o, x);
    TiersAreTiered(eps[..n], Inserted(o, x), start);
  }

  lemma ArrivalKeepsTiers(eps: seq<Episode>, o: seq<Record>, x: Record)
    requires Arrives(eps, o, x)
    ensures Arrived(eps, o, x, EpisodesAfter(eps, o, x))
  {
    hide Fold, Inserted, Tears, EpisodesAfter, Rank, Starts, StartAfter, Becomes, Arrives, SameStart, Arrived;
    if o == [] {
      var n, start := FirstAgainBecomes(eps, x);
      AgainFrozen(eps, x, n, start);
      NothingFolded(eps, x);
      BecomesArrived(eps, o, x, n, start);
    } else if Rank(o, x) == |o| {
      ExtendBecomes(eps, o, x);
      NotFirstStart(eps, o, x);
      SameStartBy(eps, o, x);
      LiftedFrozen(eps, o, x, eps[Spent(eps, o)].first);
      BecomesArrived(eps, o, x, Spent(eps, o), eps[Spent(eps, o)].first);
    } else {
      RankAtMost(o, x);
      RebuildBecomes(eps, o, x);
      if Rank(o, x) == 0 { InFrontStart(eps, o, x); } else { BehindStart(eps, o, x); }
      LiftedFrozen(eps, o, x, StartAfter(eps, o, x));
      BecomesArrived(eps, o, x, Spent(eps, o), StartAfter(eps, o, x));
    }
  }

  lemma RankAtMost(o: seq<Record>, x: Record)
    ensures Rank(o, x) <= |o|
  {
  }

  lemma NothingFolded(eps: seq<Episode>, x: Record)
    ensures Spent(eps, []) == |eps|
  {
  }

  lemma SameStartBy(eps: seq<Episode>, o: seq<Record>, x: Record)
    requires Arrives(eps, o, x) && o != [] && Rank(o, x) > 0
    ensures 0 <= Spent(eps, o) < |eps| && Fold(Inserted(o, x)) != []
    ensures SameStart(eps, o, x, eps[Spent(eps, o)].first)
  {
    NotFirstStart(eps, o, x);
  }

  lemma BehindStart(eps: seq<Episode>, o: seq<Record>, x: Record)
    requires Arrives(eps, o, x) && o != [] && Rank(o, x) > 0
    ensures |Inserted(o, x)| > 1 && 0 <= Spent(eps, o) < |eps| && Fold(Inserted(o, x)) != []
    ensures SameStart(eps, o, x, StartAfter(eps, o, x))
  {
    RefoldFacts(eps, o, x);
    NotFirstStart(eps, o, x);
    hide Fold, Inserted, Starts, Rank, Tiered;
  }

  // ---------------------------------------------------------------- releasing

  /** Some record of the episode is as late as anything in it. */
  ghost predicate ReachedBy(o: seq<Record>, j: nat, k: nat) {
    k < |o| && j < |Fold(o)| && Ord(o, k) == j && Fold(o)[j].latest <= o[k].eventTime &&
    Fold(o)[j].lastActivity <= o[k].eventTime
  }

  lemma {:induction false} EpisodeReach(o: seq<Record>, j: nat) returns (k: nat)
    requires Tidy(o) && j < |Fold(o)|
    ensures ReachedBy(o, j, k)
  {
    var n := |o| - 1;
    FoldLast(o);
    TidyPrefix(o, n);
    if j < |Fold(o)| - 1 || !Starts(o, n) {
      ReachBefore(o, j);
      k := EpisodeReach(o[..n], j);
      k := ReachLonger(o, j, k);
    } else {
      k := n;
      ReachNew(o);
    }
  }

  lemma TidyPrefix(o: seq<Record>, n: nat)
    requires Tidy(o) && n <= |o|
    ensures Tidy(o[..n])
  {
  }

  lemma ReachBefore(o: seq<Record>, j: nat)
    requires o != [] && j < |Fold(o)| && (j < |Fold(o)| - 1 || !Starts(o, |o| - 1))
    ensures j < |Fold(o[..|o| - 1])|
  {
    FoldLast(o);
    hide Joins, Contribute, Begin;
  }

  lemma ReachNew(o: seq<Record>)
    requires Tidy(o) && o != [] && Starts(o, |o| - 1)
    ensures ReachedBy(o, |Fold(o)| - 1, |o| - 1)
  {
    FoldLast(o);
    assert Fold(o)[|Fold(o)| - 1] == Begin(o[|o| - 1]);
    hide Fold, Starts, Ord;
  }

  lemma ReachLonger(o: seq<Record>, j: nat, k: nat) returns (l: nat)
    requires Tidy(o) && o != [] && j < |Fold(o)| && ReachedBy(o[..|o| - 1], j, k)
    requires j < |Fold(o)| - 1 || !Starts(o, |o| - 1)
    ensures ReachedBy(o, j, l)
  {
    var n := |o| - 1;
    FoldLast(o);
    OrdOfPrefix(o, n, k);
    var before := Fold(o[..n]);
    if j < |before| - 1 || Starts(o, n) {
      l := k;
      assert Fold(o)[j] == before[j];
    } else {
      l := n;
      assert Fold(o)[j] == Contribute(before[j], o[n]);
      assert SortsBefore(o[k], o[n]);
      hide Fold, Starts, Ord, WindowCount;
    }
  }

  /** An episode that a release empties lies behind a bound that covers all it releases. */
  lemma EmptiedIsBehind(o: seq<Record>, c: nat, j: nat, bound: int)
    requires Tidy(o) && c <= |o| && j < |Fold(o)| && j < Base(o, c)
    requires forall k :: 0 <= k < c ==> o[k].eventTime < bound
    ensures Fold(o)[j].first < bound && Fold(o)[j].latest < bound && Fold(o)[j].lastActivity < bound
  {
    var k := EpisodeReach(o, j);
    hide Fold, Ord, Tidy;
    if c <= k && c < |o| { OrdMonotone(o, c, k); }
    HeldAt(o, k);
  }

  lemma LiveBelow(eps: seq<Episode>, o: seq<Record>, i: nat)
    requires Tiered(eps, o) && Spent(eps, o) <= i < |eps|
    ensures |Live(eps[..i])| == i - Spent(eps, o) && eps[i].records != map[]
  {
    hide Fold, Tiered, Live, LiveIsFold;
    TieredIsLive(eps, o);
    LiveEntry(eps, i - Spent(eps, o));
  }

  /** What a release makes of each episode. */
  lemma ReleasedPlace(eps: seq<Episode>, o: seq<Record>, c: nat, t: seq<Record>, i: nat)
    requires Tiered(eps, o) && Suffix(o, c, t) && i < |eps| && Base(o, c) >= 0
    ensures Placed(eps, Base(o, c), t, i) ==
              if i < Spent(eps, o) + Base(o, c) then ShellOf(eps[i])
              else if i - Spent(eps, o) - Base(o, c) < |Fold(t)| then Fold(t)[i - Spent(eps, o) - Base(o, c)].(first := eps[i].first)
              else ShellOf(eps[i])
  {
    hide Fold, Tidy, Live, StrictlySorted, Base;
    if i < Spent(eps, o) { ShellsAreEmpty(eps, o); } else { LiveBelow(eps, o, i); }
  }

  lemma SuffixFirst(o: seq<Record>, c: nat, t: seq<Record>, j: nat)
    requires Suffix(o, c, t) && 0 < j < |Fold(t)|
    ensures 0 <= Base(o, c) && Base(o, c) + j < |Fold(o)| && Fold(o)[Base(o, c) + j].first == Fold(t)[j].first
  {
    hide Fold, Ord, Starts, Sorted, Distinct, Punctual, Base;
    var k := EpisodeStart(t, j);
    FirstOrd(t);
    assert k > 0;
    SuffixStarts(o, c, t, k);
    OrdOfSuffix(o, c, t, k);
    SuffixCount(o, c, t);
    StartIsFirst(o, c + k);
  }

  lemma StartIsFirst(o: seq<Record>, k: nat)
    requires Tidy(o) && k < |o| && Starts(o, k)
    ensures 0 <= Ord(o, k) < |Fold(o)| && Fold(o)[Ord(o, k)].first == o[k].eventTime
  {
    OrdMonotone(o, k, k);
    var l := EpisodeStart(o, Ord(o, k));
    hide Fold, Starts;
    if l < k { OrdConstant(o, l, k); }
    assert l == k;
  }

  lemma ReleasedLive(eps: seq<Episode>, o: seq<Record>, c: nat, t: seq<Record>, r: seq<Episode>, j: nat)
    requires Tiered(eps, o) && Suffix(o, c, t) && Base(o, c) >= 0 && r == AllPlaced(eps, Base(o, c), t)
    requires j < |Fold(t)| <= |r|
    requires Spent(r, t) == Spent(eps, o) + Base(o, c)
    ensures LiveAs(r, t, j)
  {
    hide Fold, Tiered, Live, Base, Placed, Sorted, Distinct, Punctual, AllPlaced;
    var n := Spent(r, t);
    SuffixFold(o, c, t, j);
    ReleasedPlace(eps, o, c, t, n + j);
    PlacedEntry(eps, Base(o, c), t, n + j);
    LiveAsTiered(eps, o, Base(o, c) + j);
    if j > 0 { SuffixFirst(o, c, t, j); }
  }

  lemma LiveAsTiered(eps: seq<Episode>, o: seq<Record>, j: nat)
    requires Tiered(eps, o) && j < |Fold(o)|
    ensures |Fold(o)| <= |eps| && LiveAs(eps, o, j)
  {
    hide Fold, Tidy, StrictlySorted, LiveAs;
  }

  /** A release turns the episodes it empties into shells and leaves the fold of the rest behind them. */
  lemma ReleaseIsTiered(eps: seq<Episode>, o: seq<Record>, c: nat, t: seq<Record>, bound: int)
    requires Tiered(eps, o) && Suffix(o, c, t) && ShellsBehind(eps, o, bound)
    requires forall k :: 0 <= k < c ==> o[k].eventTime < bound
    ensures Tiered(Reconstruct(eps, t), t) && ShellsBehind(Reconstruct(eps, t), t, bound)
    ensures Spent(Reconstruct(eps, t), t) == Spent(eps, o) + Base(o, c)
  {
    hide Fold, Tidy, Live, StrictlySorted, Base, Placed, Reconstruct, LiveAs, ShellOf, LiveIsFold;
    TieredIsLive(eps, o);
    ReconstructKeepsPlaces(eps, o, c, t);
    var r := Reconstruct(eps, t);
    SuffixCount(o, c, t);
    assert Spent(r, t) == Spent(eps, o) + Base(o, c);
    AllPlacedKeep(eps, o, c, t);
    SamePlacesSorted(eps, r, t, 0);
    assert r[0..] == r;
    forall i | 0 <= i < Spent(r, t)
      ensures r[i] == ShellOf(r[i]) && r[i].first < bound && r[i].latest < bound && r[i].lastActivity < bound
    {
      PlacedEntry(eps, Base(o, c), t, i);
      ReleasedPlace(eps, o, c, t, i);
      NewShell(eps, o, c, i, bound);
    }
    forall j | 0 <= j < |Fold(t)| ensures LiveAs(r, t, j) { ReleasedLive(eps, o, c, t, r, j); }
  }

  lemma NewShell(eps: seq<Episode>, o: seq<Record>, c: nat, i: nat, bound: int)
    requires Tiered(eps, o) && c <= |o| && ShellsBehind(eps, o, bound) && i < Spent(eps, o) + Base(o, c) && i < |eps|
    requires forall k :: 0 <= k < c ==> o[k].eventTime < bound
    ensures var s := ShellOf(eps[i]); s == ShellOf(s) && s.first < bound && s.latest < bound && s.lastActivity < bound
  {
    if i >= Spent(eps, o) {
      var j := i - Spent(eps, o);
      assert LiveAs(eps, o, j);
      EmptiedIsBehind(o, c, j, bound);
    }
    hide Fold, Tidy, StrictlySorted, Base;
  }

  lemma DropKeepsTiers(eps: seq<Episode>, o: seq<Record>, m: nat, bound: int)
    requires Tiered(eps, o) && m <= |eps| && (forall i :: 0 <= i < m ==> eps[i].records == map[])
    ensures m <= Spent(eps, o) && Tiered(eps[m..], o) && Spent(eps[m..], o) == Spent(eps, o) - m
    ensures ShellsBehind(eps, o, bound) ==> ShellsBehind(eps[m..], o, bound)
  {
    hide Fold, Tidy, StartsBefore;
    if m > Spent(eps, o) { FirstLive(eps, o); }
    forall j | 0 <= j < |Fold(o)|
      ensures |Fold(o)| <= |eps[m..]| && LiveAs(eps[m..], o, j)
    {
      assert LiveAs(eps, o, j);
    }
  }

  lemma FirstLive(eps: seq<Episode>, o: seq<Record>)
    requires Tiered(eps, o) && Spent(eps, o) < |eps|
    ensures 0 <= Spent(eps, o) && eps[Spent(eps, o)].records != map[]
  {
    assert LiveAs(eps, o, 0);
    FoldRecords(o, 0);
  }
}
