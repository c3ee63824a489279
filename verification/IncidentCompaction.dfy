/** Compaction: what it may release, and why it renames and renumbers nothing it keeps. */
module IncidentCompaction {
  import opened Basics
  import opened IncidentModel
  import opened IncidentFold
  import opened IncidentRuns

  // ---------------------------------------------------------------- punctual records

  /** Observed time is never behind event time, so activity is event time. */
  ghost predicate Punctual(s: seq<Record>) {
    forall k :: 0 <= k < |s| ==> s[k].observedTime >= s[k].eventTime
  }

  lemma {:induction false} LastEpisode(s: seq<Record>)
    requires s != [] && Sorted(s) && Punctual(s)
    ensures var eps := Fold(s);
            eps != [] && eps[|eps| - 1].deployment == s[|s| - 1].deployment &&
            eps[|eps| - 1].lastActivity == s[|s| - 1].eventTime
  {
    hide FoldStep;
    var n := |s| - 1;
    if n > 0 { LastEpisode(s[..n]); assert SortsBefore(s[n - 1], s[n]); }
    OpenAfterStep(Fold(s[..n]), s[n]);
    assert s[n].observedTime >= s[n].eventTime;
  }

  lemma OpenAfterStep(eps: seq<Episode>, r: Record)
    ensures var h := FoldStep(eps, r); h != [] && h[|h| - 1].deployment == r.deployment
    ensures var h := FoldStep(eps, r);
            (eps == [] || eps[|eps| - 1].lastActivity <= Activity(r)) ==> h[|h| - 1].lastActivity == Activity(r)
  {
  }

  /** With punctual records a boundary depends on two neighbours only. */
  predicate Gap(a: Record, b: Record) {
    a.deployment != b.deployment || b.eventTime >= a.eventTime + REOPEN
  }

  lemma StartsAtGap(s: seq<Record>, k: nat)
    requires Sorted(s) && Punctual(s) && 0 < k < |s|
    ensures Starts(s, k) == Gap(s[k - 1], s[k])
  {
    LastEpisode(s[..k]);
  }

  ghost predicate Tidy(s: seq<Record>) {
    Sorted(s) && Distinct(s) && Punctual(s)
  }

  /** `t` is what remains of the order `o` once its first `c` records are released. */
  ghost predicate Suffix(o: seq<Record>, c: nat, t: seq<Record>) {
    Tidy(o) && Tidy(t) && c + |t| == |o| && forall k :: 0 <= k < |t| ==> t[k] == o[c + k]
  }

  lemma DropIsSuffix(o: seq<Record>, c: nat)
    requires Tidy(o) && c <= |o|
    ensures Suffix(o, c, o[c..])
  {
  }

  /** Number of episodes that lie wholly before position c. */
  function Base(o: seq<Record>, c: nat): int
    requires c <= |o|
  {
    if c < |o| then Ord(o, c) else |Fold(o)|
  }

  lemma SuffixStarts(o: seq<Record>, c: nat, t: seq<Record>, k: nat)
    requires Suffix(o, c, t) && 0 < k < |t|
    ensures Starts(t, k) == Starts(o, c + k)
  {
    hide Starts, Gap, Sorted, Distinct, Punctual;
    StartsAtGap(o, c + k);
    StartsAtGap(t, k);
    assert t[k - 1] == o[c + (k - 1)];
  }

  lemma {:induction false} OrdOfSuffix(o: seq<Record>, c: nat, t: seq<Record>, k: nat)
    requires Suffix(o, c, t) && k < |t|
    ensures c + k < |o| && Ord(t, k) == Ord(o, c + k) - Base(o, c)
  {
    hide Ord, Fold, Starts, Tidy;
    if k == 0 {
      FirstOrd(t);
    } else {
      OrdOfSuffix(o, c, t, k - 1);
      OrdStep(o, c + k - 1);
      OrdStep(t, k - 1);
      SuffixStarts(o, c, t, k);
    }
  }

  lemma FirstOrd(t: seq<Record>)
    requires t != []
    ensures Ord(t, 0) == 0
  {
    FoldAt(t, 0);
  }

  function Restrict(m: map<bytes, Record>, held: set<bytes>): map<bytes, Record> {
    map id | id in m && id in held :: m[id]
  }

  /** The position of a record an episode holds. */
  lemma MemberAt(s: seq<Record>, i: nat, id: bytes) returns (k: nat)
    requires Tidy(s) && i < |Fold(s)| && id in Fold(s)[i].records
    ensures k < |s| && Ord(s, k) == i && s[k].id == id && Fold(s)[i].records[id] == s[k]
  {
    FoldShaped(s);
    hide Ord, Fold, Tidy;
    k :| 0 <= k < |s| && Ord(s, k) == i && s[k].id == id;
  }

  lemma PositionOfId(s: seq<Record>, a: nat, b: nat)
    requires Tidy(s) && a < |s| && b < |s| && s[a].id == s[b].id
    ensures a == b
  {
  }

  lemma HeldAt(s: seq<Record>, k: nat)
    requires Tidy(s) && k < |s|
    ensures 0 <= Ord(s, k) < |Fold(s)| && s[k].id in Fold(s)[Ord(s, k)].records
    ensures Fold(s)[Ord(s, k)].deployment == s[k].deployment && Fold(s)[Ord(s, k)].first <= s[k].eventTime
  {
    FoldShaped(s);
  }

  /** The position of a record of the suffix in both orders. */
  lemma SuffixMember(o: seq<Record>, c: nat, t: seq<Record>, j: nat, id: bytes) returns (l: nat)
    requires Suffix(o, c, t) && j < |Fold(t)| && id in Fold(t)[j].records
    ensures l < |t| && c + l < |o| && t[l] == o[c + l] && t[l].id == id && Fold(t)[j].records[id] == t[l]
    ensures Ord(t, l) == j && Ord(o, c + l) == Base(o, c) + j
  {
    hide Ord, Fold, Base, Tidy;
    l := MemberAt(t, j, id);
    OrdOfSuffix(o, c, t, l);
  }

  lemma SuffixHolds(o: seq<Record>, c: nat, t: seq<Record>, j: nat, id: bytes)
    requires Suffix(o, c, t) && j < |Fold(t)| && 0 <= Base(o, c) + j < |Fold(o)|
    requires id in Fold(o)[Base(o, c) + j].records && id in Ids(t)
    ensures id in Fold(t)[j].records
  {
    hide Ord, Fold, Base, Tidy;
    var l :| 0 <= l < |t| && t[l].id == id;
    OrdOfSuffix(o, c, t, l);
    var l' := MemberAt(o, Base(o, c) + j, id);
    PositionOfId(o, l', c + l);
    HeldAt(t, l);
  }

  lemma SuffixMembers(o: seq<Record>, c: nat, t: seq<Record>, j: nat)
    requires Suffix(o, c, t) && j < |Fold(t)| && 0 <= Base(o, c) + j < |Fold(o)|
    ensures Fold(t)[j].records == Restrict(Fold(o)[Base(o, c) + j].records, Ids(t))
  {
    hide Ord, Fold, Base, Tidy;
    var x, y := Fold(t)[j].records, Fold(o)[Base(o, c) + j].records;
    forall id | id in x ensures id in y && id in Ids(t) && x[id] == y[id] {
      var l := SuffixMember(o, c, t, j, id);
      assert t[l] in t;
      HeldAt(o, c + l);
      var l' := MemberAt(o, Base(o, c) + j, id);
      PositionOfId(o, l', c + l);
    }
    forall id | id in y && id in Ids(t) ensures id in x { SuffixHolds(o, c, t, j, id); }
  }

  /** Folding a suffix drops whole leading episodes and the released records of the next one. */
  lemma SuffixFold(o: seq<Record>, c: nat, t: seq<Record>, j: nat)
    requires Suffix(o, c, t) && j < |Fold(t)|
    ensures 0 <= Base(o, c) && Base(o, c) + j < |Fold(o)|
    ensures Fold(t)[j].deployment == Fold(o)[Base(o, c) + j].deployment
    ensures Fold(t)[j].first >= Fold(o)[Base(o, c) + j].first
    ensures Fold(t)[j].records == Restrict(Fold(o)[Base(o, c) + j].records, Ids(t))
  {
    hide Ord, Fold, Starts, Restrict, Sorted, Distinct, Punctual;
    var k := EpisodeStart(t, j);
    OrdOfSuffix(o, c, t, k);
    OrdMonotone(o, c, c + k);
    SuffixMembers(o, c, t, j);
    HeldAt(o, c + k);
    assert t[k] == o[c + k];
  }

  lemma SuffixCount(o: seq<Record>, c: nat, t: seq<Record>)
    requires Suffix(o, c, t)
    ensures 0 <= Base(o, c) <= |Fold(o)| && |Fold(t)| == |Fold(o)| - Base(o, c)
  {
    if t != [] {
      hide Ord, Fold, Tidy;
      OrdOfSuffix(o, c, t, |t| - 1);
      OrdMonotone(o, c, |o| - 1);
      LastOrd(o);
      LastOrd(t);
    }
  }

  lemma LastOrd(s: seq<Record>)
    requires s != []
    ensures Ord(s, |s| - 1) == |Fold(s)| - 1
  {
    assert s[..|s|] == s;
  }

  // ---------------------------------------------------------------- well-formed families

  /** Indexes of the episodes that still hold records. */
  function Live(eps: seq<Episode>): (l: seq<nat>)
    ensures forall j :: 0 <= j < |l| ==> l[j] < |eps| && eps[l[j]].records != map[]
    ensures forall j, k :: 0 <= j < k < |l| ==> l[j] < l[k]
    ensures forall i :: 0 <= i < |eps| && eps[i].records != map[] ==> i in l
  {
    if eps == [] then []
    else
      var n := |eps| - 1;
      Live(eps[..n]) + if eps[n].records == map[] then [] else [n]
  }

  /** The live episodes are the fold, under identities assigned no later than their first surviving record. */
  ghost predicate LiveIsFold(eps: seq<Episode>, o: seq<Record>) {
    && |Live(eps)| == |Fold(o)|
    && forall j :: 0 <= j < |Fold(o)| ==>
         var p := eps[Live(eps)[j]];
         p.records == Fold(o)[j].records && p.deployment == Fold(o)[j].deployment && p.first <= Fold(o)[j].first
  }

  ghost predicate StrictlySorted(eps: seq<Episode>) {
    forall i, j :: 0 <= i < j < |eps| ==> StartsBefore(eps[i], eps[j])
  }

  ghost predicate WellFormed(f: Family) {
    && Sorted(f.ordered) && Distinct(f.ordered) && Punctual(f.ordered)
    && LiveIsFold(Episodes(f.generations), f.ordered)
    && StrictlySorted(Episodes(f.generations))
    && forall i :: 0 <= i < |f.generations| ==> f.generations[i].number == f.pruned + i + 1
  }

  lemma AssignedIsLive(eps: seq<Episode>, o: seq<Record>, k: nat)
    requires Tidy(o) && LiveIsFold(eps, o) && k < |o|
    ensures 0 <= Ord(o, k) < |Live(eps)|
    ensures Assigned(eps, o[k].id) == Some(Live(eps)[Ord(o, k)])
  {
    FoldShaped(o);
    hide Fold, Ord, Assigned, Live;
    var id := o[k].id;
    assert id in eps[Live(eps)[Ord(o, k)]].records;
    var i := Assigned(eps, id).value;
    assert eps[i].records != map[];
    var j :| 0 <= j < |Live(eps)| && Live(eps)[j] == i;
    assert id in Fold(o)[j].records;
    var l :| 0 <= l < |o| && Ord(o, l) == j && o[l].id == id;
    assert l == k;
  }

  /** Every record a suffix episode holds was assigned to the same live episode. */
  lemma MembersAssigned(eps: seq<Episode>, o: seq<Record>, c: nat, t: seq<Record>, j: nat, id: bytes)
    requires Suffix(o, c, t) && LiveIsFold(eps, o) && j < |Fold(t)|
    requires id in Fold(t)[j].records
    ensures 0 <= Base(o, c) + j < |Live(eps)| && Assigned(eps, id) == Some(Live(eps)[Base(o, c) + j])
  {
    hide Fold, Ord, Assigned, Live, Base, LiveIsFold, Tidy;
    var l := SuffixMember(o, c, t, j, id);
    AssignedIsLive(eps, o, c + l);
  }

  lemma SomeMember(t: seq<Record>, j: nat) returns (id: bytes)
    requires Tidy(t) && j < |Fold(t)|
    ensures id in Fold(t)[j].records
  {
    var k := EpisodeStart(t, j);
    FoldShaped(t);
    id := t[k].id;
  }

  lemma MatchIsLive(eps: seq<Episode>, o: seq<Record>, c: nat, t: seq<Record>, j: nat, cursor: nat)
    requires Suffix(o, c, t) && LiveIsFold(eps, o) && j < |Fold(t)|
    requires 0 <= Base(o, c) + j < |Live(eps)| && cursor <= Live(eps)[Base(o, c) + j]
    ensures Match(eps, Fold(t)[j], cursor) == Some(Live(eps)[Base(o, c) + j])
  {
    hide Fold, Ord, Assigned, Live, Base, LiveIsFold, Match, Tidy;
    var g := Fold(t)[j];
    var some := SomeMember(t, j);
    MembersAssigned(eps, o, c, t, j, some);
    assert Candidate(eps, g, cursor, Live(eps)[Base(o, c) + j]);
    forall i: nat | Candidate(eps, g, cursor, i) ensures i == Live(eps)[Base(o, c) + j] {
      var id :| id in g.records && Assigned(eps, id) == Some(i);
      MembersAssigned(eps, o, c, t, j, id);
    }
    assert Matches(eps, g, cursor, Match(eps, g, cursor));
  }

  ghost predicate AdoptsLive(eps: seq<Episode>, base: int, folded: seq<Episode>, a: Adoption) {
    Takes(eps, Live(eps), base, folded, a)
  }

  /** The folded episodes took the starts of the prior ones listed in `l` from `base` on. */
  ghost predicate Takes(eps: seq<Episode>, l: seq<nat>, base: int, folded: seq<Episode>, a: Adoption) {
    var n := |folded|;
    && 0 <= base && base + n <= |l| && |a.episodes| == n
    && a.cursor == (if n == 0 then 0 else l[base + n - 1] + 1)
    && (forall i: nat :: i in a.adopted <==> i in l[base..base + n])
    && (forall j :: 0 <= j < n ==> l[base + j] < |eps| && a.episodes[j] == folded[j].(first := eps[l[base + j]].first))
  }

  lemma {:induction false} AdoptionTakesLive(eps: seq<Episode>, o: seq<Record>, c: nat, t: seq<Record>, n: nat)
    requires Suffix(o, c, t) && LiveIsFold(eps, o) && n <= |Fold(t)|
    ensures AdoptsLive(eps, Base(o, c), Fold(t)[..n], AdoptAll(eps, Fold(t)[..n]))
  {
    hide Fold, Base, AdoptNext, Live, LiveIsFold, Tidy;
    SuffixCount(o, c, t);
    LiveCount(eps, o);
    var G := Fold(t);
    if n > 0 {
      hide AdoptsLive, AdoptAll;
      AdoptionTakesLive(eps, o, c, t, n - 1);
      AdoptAt(eps, G, n - 1);
      AdoptOneMore(eps, o, c, t, n - 1, AdoptAll(eps, G[..n - 1]));
      assert G[..n] == G[..n - 1] + [G[n - 1]];
    }
  }

  lemma LiveCount(eps: seq<Episode>, o: seq<Record>)
    requires LiveIsFold(eps, o)
    ensures |Live(eps)| == |Fold(o)|
  {
  }

  lemma AdoptOneMore(eps: seq<Episode>, o: seq<Record>, c: nat, t: seq<Record>, n: nat, a: Adoption)
    requires Suffix(o, c, t) && LiveIsFold(eps, o) && n < |Fold(t)|
    requires AdoptsLive(eps, Base(o, c), Fold(t)[..n], a)
    ensures AdoptsLive(eps, Base(o, c), Fold(t)[..n] + [Fold(t)[n]], AdoptNext(eps, a, Fold(t)[n]))
  {
    hide Fold, Base, Live, Match, AdoptNext, Tidy, Restrict, LiveIsFold, AdoptsLive;
    SuffixCount(o, c, t);
    LiveCount(eps, o);
    var b := Base(o, c);
    var m := Live(eps)[b + n];
    CursorBelow(eps, b, Fold(t)[..n], a);
    MatchIsLive(eps, o, c, t, n, a.cursor);
    StartsNoLater(eps, o, c, t, n);
    AdoptNextIs(eps, a, Fold(t)[n], m);
    AdoptsNext(eps, b, Fold(t)[..n], a, Fold(t)[n]);
  }

  lemma CursorBelow(eps: seq<Episode>, base: int, folded: seq<Episode>, a: Adoption)
    requires AdoptsLive(eps, base, folded, a) && base + |folded| < |Live(eps)|
    ensures a.cursor <= Live(eps)[base + |folded|]
  {
    hide Live;
    var n := |folded|;
    if n > 0 { assert Live(eps)[base + n - 1] < Live(eps)[base + n]; }
  }

  lemma StartsNoLater(eps: seq<Episode>, o: seq<Record>, c: nat, t: seq<Record>, n: nat)
    requires Suffix(o, c, t) && LiveIsFold(eps, o) && n < |Fold(t)|
    ensures 0 <= Base(o, c) + n < |Live(eps)|
    ensures eps[Live(eps)[Base(o, c) + n]].first <= Fold(t)[n].first
  {
    hide Fold, Base, Live, Tidy, Restrict;
    SuffixFold(o, c, t, n);
  }

  /** Taking the next live episode for the next folded one. */
  lemma AdoptsNext(eps: seq<Episode>, base: int, folded: seq<Episode>, a: Adoption, g: Episode)
    requires AdoptsLive(eps, base, folded, a) && base + |folded| < |Live(eps)|
    ensures var m := Live(eps)[base + |folded|];
            AdoptsLive(eps, base, folded + [g],
                       Adoption(a.episodes + [g.(first := eps[m].first)], a.adopted + {m}, m + 1))
  {
    hide Live;
    TakesNext(eps, Live(eps), base, folded, a, g);
  }

  lemma TakesNext(eps: seq<Episode>, l: seq<nat>, base: int, folded: seq<Episode>, a: Adoption, g: Episode)
    requires Takes(eps, l, base, folded, a) && base + |folded| < |l| && l[base + |folded|] < |eps|
    ensures var m := l[base + |folded|];
            Takes(eps, l, base, folded + [g],
                  Adoption(a.episodes + [g.(first := eps[m].first)], a.adopted + {m}, m + 1))
  {
    OneMoreTaken(l, base, base + |folded|);
  }

  lemma OneMoreTaken(l: seq<nat>, a: int, b: int)
    requires 0 <= a <= b < |l|
    ensures forall i: nat :: i in l[a..b + 1] <==> i in l[a..b] || i == l[b]
  {
    assert l[a..b + 1] == l[a..b] + [l[b]];
  }

  lemma AdoptNextIs(prior: seq<Episode>, a: Adoption, g: Episode, m: nat)
    requires Match(prior, g, a.cursor) == Some(m) && m < |prior| && prior[m].first <= g.first
    ensures AdoptNext(prior, a, g) == Adoption(a.episodes + [g.(first := prior[m].first)], a.adopted + {m}, m + 1)
  {
  }

  // ---------------------------------------------------------------- the stable sort puts shells back in place

  lemma {:induction false} InsertIntoPlace(r: seq<Episode>, i: nat)
    requires i < |r| && StrictlySorted(r)
    ensures StableInsert(r[..i] + r[i + 1..], r[i]) == r
    decreases |r|
  {
    var n := |r| - 1;
    var rest := r[..i] + r[i + 1..];
    if i == n {
      assert rest == r[..n];
      if n > 0 { StartsAsymmetric(r[n - 1], r[n]); }
      assert r[..n] + [r[n]] == r;
    } else {
      assert rest[..n - 1] == r[..n][..i] + r[..n][i + 1..];
      InsertIntoPlace(r[..n], i);
      assert r[..n] + [r[n]] == r;
    }
  }

  lemma StartsAsymmetric(a: Episode, b: Episode)
    requires StartsBefore(a, b)
    ensures !StartsBefore(b, a)
  {
    if a.first == b.first && Less(b.deployment, a.deployment) {
      LessTransitive(a.deployment, b.deployment, a.deployment);
      LessIrreflexive(a.deployment);
    }
  }

  lemma WithoutOne(r: seq<Episode>, i: nat)
    requires i < |r|
    ensures multiset(r[..i] + r[i + 1..]) == multiset(r) - multiset{r[i]}
  {
    assert r == r[..i] + [r[i]] + r[i + 1..];
  }

  lemma StillSorted(r: seq<Episode>, i: nat)
    requires i < |r| && StrictlySorted(r)
    ensures StrictlySorted(r[..i] + r[i + 1..])
  {
    hide StartsBefore;
  }

  lemma {:induction false} SortOfPermutation(s: seq<Episode>, r: seq<Episode>)
    requires StrictlySorted(r) && multiset(s) == multiset(r)
    ensures StableSort(s) == r
    decreases |s|
  {
    hide StableInsert, StrictlySorted, StartsBefore;
    assert |s| == |multiset(s)| == |multiset(r)| == |r|;
    if s != [] {
      var n := |s| - 1;
      assert s == s[..n] + [s[n]];
      assert s[n] in multiset(r);
      var i :| 0 <= i < |r| && r[i] == s[n];
      WithoutOne(r, i);
      StillSorted(r, i);
      InsertIntoPlace(r, i);
      SortOfPermutation(s[..n], r[..i] + r[i + 1..]);
    }
  }

  /** The episodes of `r` at the adopted indexes, in order. */
  function Picked(r: seq<Episode>, adopted: set<nat>): seq<Episode> {
    if r == [] then []
    else Picked(r[..|r| - 1], adopted) + if |r| - 1 in adopted then [r[|r| - 1]] else []
  }

  lemma {:induction false} ShellsFillIn(prior: seq<Episode>, r: seq<Episode>, adopted: set<nat>, held: set<bytes>)
    requires |r| == |prior|
    requires forall i :: 0 <= i < |r| && i !in adopted ==> !RetainsAnyOf(prior[i], held) && r[i] == ShellOf(prior[i])
    ensures multiset(Picked(r, adopted)) + multiset(Shells(prior, adopted, held)) == multiset(r)
  {
    if r != [] {
      hide RetainsAnyOf, ShellOf;
      var n := |r| - 1;
      assert r == r[..n] + [r[n]];
      ShellsFillIn(prior[..n], r[..n], adopted, held);
    }
  }

  lemma LiveAt(eps: seq<Episode>, n: nat)
    requires n < |eps|
    ensures Live(eps[..n + 1]) == Live(eps[..n]) + if eps[n].records == map[] then [] else [n]
  {
    assert eps[..n + 1][..n] == eps[..n];
  }

  lemma {:induction false} LivePrefix(eps: seq<Episode>, n: nat)
    requires n <= |eps|
    ensures Live(eps[..n]) <= Live(eps)
    decreases |eps| - n
  {
    if n < |eps| {
      LiveAt(eps, n);
      LivePrefix(eps, n + 1);
    } else {
      assert eps[..n] == eps;
    }
  }

  /** Where a live index stands among the live indexes. */
  lemma LivePosition(eps: seq<Episode>, n: nat)
    requires n < |eps| && eps[n].records != map[]
    ensures |Live(eps[..n])| < |Live(eps)| && Live(eps)[|Live(eps[..n])|] == n
  {
    LiveAt(eps, n);
    LivePrefix(eps, n + 1);
  }

  predicate Adopted(eps: seq<Episode>, base: nat, i: nat)
    requires i < |eps|
  {
    eps[i].records != map[] && |Live(eps[..i])| >= base
  }

  /** `p` lists `r` at the indexes `l` from position `base` on. */
  ghost predicate PicksFrom(p: seq<Episode>, r: seq<Episode>, l: seq<nat>, base: nat) {
    && |p| == (if |l| > base then |l| - base else 0)
    && forall k :: base <= k < |l| ==> l[k] < |r| && p[k - base] == r[l[k]]
  }

  lemma PicksOneMore(p: seq<Episode>, r: seq<Episode>, l: seq<nat>, base: nat, n: nat)
    requires n < |r| && PicksFrom(p, r, l, base)
    ensures |l| < base ==> PicksFrom(p, r, l + [n], base)
    ensures |l| >= base ==> PicksFrom(p + [r[n]], r, l + [n], base)
  {
    var p', l' := p + [r[n]], l + [n];
    forall k | base <= k < |l| ensures l'[k] == l[k] && p'[k - base] == p[k - base] { }
  }

  lemma PickedAt(r: seq<Episode>, adopted: set<nat>, n: nat)
    requires n < |r|
    ensures Picked(r[..n + 1], adopted) == Picked(r[..n], adopted) + if n in adopted then [r[n]] else []
  {
    assert r[..n + 1][..n] == r[..n];
  }

  /** Picking the adopted indexes of `r` lists `r` at the live indexes from `base` on. */
  lemma {:induction false} PickedIsLive(eps: seq<Episode>, r: seq<Episode>, adopted: set<nat>, base: nat, n: nat)
    requires |r| == |eps| && n <= |eps|
    requires forall i: nat :: i < n ==> (i in adopted <==> Adopted(eps, base, i))
    ensures PicksFrom(Picked(r[..n], adopted), r, Live(eps[..n]), base)
    decreases n
  {
    if n > 0 {
      hide Live, PicksFrom, Picked;
      var m := n - 1;
      PickedIsLive(eps, r, adopted, base, m);
      LiveAt(eps, m);
      PickedAt(r, adopted, m);
      PicksOneMore(Picked(r[..m], adopted), r, Live(eps[..m]), base, m);
      assert m in adopted <==> Adopted(eps, base, m);
      var l, p := Live(eps[..m]), Picked(r[..m], adopted);
      assert l + [] == l && p + [] == p;
    } else {
      assert eps[..0] == [] && r[..0] == [];
    }
  }

  // ---------------------------------------------------------------- every episode keeps its place

  /** Episode i after its records outside `t` are released: same start, same deployment, same place. */
  function Placed(eps: seq<Episode>, base: nat, t: seq<Record>, i: nat): Episode
    requires i < |eps|
  {
    var j := |Live(eps[..i])| - base;
    if eps[i].records != map[] && 0 <= j < |Fold(t)| then Fold(t)[j].(first := eps[i].first) else ShellOf(eps[i])
  }

  function AllPlaced(eps: seq<Episode>, base: nat, t: seq<Record>): (r: seq<Episode>)
    ensures |r| == |eps|
  {
    seq(|eps|, i requires 0 <= i < |eps| => Placed(eps, base, t, i))
  }

  lemma ReleasedEpisode(o: seq<Record>, c: nat, t: seq<Record>, j: nat)
    requires Suffix(o, c, t) && j < |Fold(o)| && j < Base(o, c)
    ensures !RetainsAnyOf(Fold(o)[j], Ids(t))
  {
    hide Fold, Ord, Tidy;
    forall id | id in Fold(o)[j].records ensures id !in Ids(t) {
      var k := MemberAt(o, j, id);
      if c < |o| && c <= k { OrdMonotone(o, c, k); }
      assert k < c;
      ReleasedId(o, c, t, k);
    }
  }

  lemma ReleasedId(o: seq<Record>, c: nat, t: seq<Record>, k: nat)
    requires Suffix(o, c, t) && k < c
    ensures o[k].id !in Ids(t)
  {
    forall r | r in t ensures r.id != o[k].id {
      var l :| 0 <= l < |t| && t[l] == r;
      assert t[l] == o[c + l];
    }
  }

  lemma LiveRecords(eps: seq<Episode>, o: seq<Record>, i: nat)
    requires LiveIsFold(eps, o) && i < |eps| && eps[i].records != map[]
    ensures var j := |Live(eps[..i])|;
            j < |Fold(o)| && Live(eps)[j] == i && eps[i].records == Fold(o)[j].records &&
            eps[i].deployment == Fold(o)[j].deployment && eps[i].first <= Fold(o)[j].first
  {
    LivePosition(eps, i);
  }

  lemma PlacedIdentity(eps: seq<Episode>, o: seq<Record>, c: nat, t: seq<Record>, i: nat)
    requires Suffix(o, c, t) && LiveIsFold(eps, o) && i < |eps| && Base(o, c) >= 0
    ensures var p := Placed(eps, Base(o, c), t, i);
            p.first == eps[i].first && p.deployment == eps[i].deployment &&
            p.records == Restrict(eps[i].records, Ids(t))
  {
    hide Fold, Base, Live, LiveIsFold, Tidy;
    SuffixCount(o, c, t);
    if eps[i].records != map[] {
      LiveRecords(eps, o, i);
      var j := |Live(eps[..i])| - Base(o, c);
      if j >= 0 { SuffixFold(o, c, t, j); } else { ReleasedEpisode(o, c, t, j + Base(o, c)); }
    }
  }

  lemma NotAdoptedNotRetained(eps: seq<Episode>, o: seq<Record>, c: nat, t: seq<Record>, i: nat)
    requires Suffix(o, c, t) && LiveIsFold(eps, o) && i < |eps| && Base(o, c) >= 0 && !Adopted(eps, Base(o, c), i)
    ensures !RetainsAnyOf(eps[i], Ids(t)) && Placed(eps, Base(o, c), t, i) == ShellOf(eps[i])
  {
    hide Fold, Base, Live, LiveIsFold, Tidy;
    if eps[i].records != map[] {
      LiveRecords(eps, o, i);
      ReleasedEpisode(o, c, t, |Live(eps[..i])|);
    }
  }

  lemma AdoptedIsAdopted(eps: seq<Episode>, o: seq<Record>, c: nat, t: seq<Record>, a: Adoption, i: nat)
    requires Suffix(o, c, t) && LiveIsFold(eps, o) && i < |eps| && Base(o, c) >= 0
    requires AdoptsLive(eps, Base(o, c), Fold(t), a)
    ensures i in a.adopted <==> Adopted(eps, Base(o, c), i)
  {
    hide Fold, Base, LiveIsFold, Tidy, Live;
    SuffixCount(o, c, t);
    LiveCount(eps, o);
    var b, l := Base(o, c), Live(eps);
    assert l[b..b + |Fold(t)|] == l[b..];
    if eps[i].records != map[] {
      LivePosition(eps, i);
      InTail(l, b, |Live(eps[..i])|);
    } else {
      assert i !in l;
    }
  }

  lemma InTail(l: seq<nat>, b: nat, p: nat)
    requires b <= |l| && p < |l| && forall j, k :: 0 <= j < k < |l| ==> l[j] < l[k]
    ensures l[p] in l[b..] <==> p >= b
  {
    if p >= b { assert l[b..][p - b] == l[p]; }
  }

  /** rebuild after a prefix was released: nothing moves, whatever became a shell. */
  lemma ReconstructKeepsPlaces(eps: seq<Episode>, o: seq<Record>, c: nat, t: seq<Record>)
    requires Suffix(o, c, t) && LiveIsFold(eps, o) && StrictlySorted(eps)
    ensures Base(o, c) >= 0 && Reconstruct(eps, t) == AllPlaced(eps, Base(o, c), t)
  {
    hide Fold, LiveIsFold, Tidy, Base, Live, AdoptAll, Placed, StartsBefore, ShellOf, Restrict;
    SuffixCount(o, c, t);
    LiveCount(eps, o);
    var b, n := Base(o, c), |Fold(t)|;
    AdoptionTakesLive(eps, o, c, t, n);
    assert Fold(t)[..n] == Fold(t);
    var a, r := AdoptAll(eps, Fold(t)), AllPlaced(eps, b, t);
    forall i: nat | i < |eps|
      ensures i in a.adopted <==> Adopted(eps, b, i)
      ensures i !in a.adopted ==> !RetainsAnyOf(eps[i], Ids(t)) && r[i] == ShellOf(eps[i])
      ensures r[i].first == eps[i].first && r[i].deployment == eps[i].deployment
    {
      AdoptedIsAdopted(eps, o, c, t, a, i);
      if !Adopted(eps, b, i) { NotAdoptedNotRetained(eps, o, c, t, i); }
      PlacedIdentity(eps, o, c, t, i);
    }
    ShellsFillIn(eps, r, a.adopted, Ids(t));
    PickedIsEpisodes(eps, o, c, t, a, r);
    SameKeysSorted(eps, r);
    SortOfPermutation(a.episodes + Shells(eps, a.adopted, Ids(t)), r);
  }

  lemma SameKeysSorted(eps: seq<Episode>, r: seq<Episode>)
    requires StrictlySorted(eps) && |r| == |eps|
    requires forall i :: 0 <= i < |r| ==> r[i].first == eps[i].first && r[i].deployment == eps[i].deployment
    ensures StrictlySorted(r)
  {
    forall i, j | 0 <= i < j < |r| ensures StartsBefore(r[i], r[j]) { assert StartsBefore(eps[i], eps[j]); }
  }

  lemma PlacedAt(eps: seq<Episode>, base: nat, t: seq<Record>, i: nat, j: nat)
    requires i < |eps| && eps[i].records != map[] && |Live(eps[..i])| == base + j && j < |Fold(t)|
    ensures Placed(eps, base, t, i) == Fold(t)[j].(first := eps[i].first)
  {
    hide Fold, Live;
  }

  lemma {:induction false} StrictlyUp(l: seq<nat>, a: nat, b: nat)
    requires a < |l| && b < |l| && l[a] == l[b] && forall j, k :: 0 <= j < k < |l| ==> l[j] < l[k]
    ensures a == b
  {
  }

  lemma LiveEntry(eps: seq<Episode>, k: nat)
    requires k < |Live(eps)|
    ensures Live(eps)[k] < |eps| && eps[Live(eps)[k]].records != map[] && |Live(eps[..Live(eps)[k]])| == k
  {
    hide Live;
    LivePosition(eps, Live(eps)[k]);
    StrictlyUp(Live(eps), |Live(eps[..Live(eps)[k]])|, k);
  }

  lemma PlacedAdopted(eps: seq<Episode>, base: nat, t: seq<Record>, a: Adoption, j: nat)
    requires AdoptsLive(eps, base, Fold(t), a) && j < |Fold(t)|
    ensures Live(eps)[base + j] < |eps| && a.episodes[j] == Placed(eps, base, t, Live(eps)[base + j])
  {
    hide Fold, Live, Placed;
    LiveEntry(eps, base + j);
    PlacedAt(eps, base, t, Live(eps)[base + j], j);
  }

  lemma PickedIsEpisodes(eps: seq<Episode>, o: seq<Record>, c: nat, t: seq<Record>, a: Adoption, r: seq<Episode>)
    requires Suffix(o, c, t) && LiveIsFold(eps, o) && Base(o, c) >= 0
    requires AdoptsLive(eps, Base(o, c), Fold(t), a) && r == AllPlaced(eps, Base(o, c), t)
    requires forall i: nat :: i < |eps| ==> (i in a.adopted <==> Adopted(eps, Base(o, c), i))
    ensures Picked(r, a.adopted) == a.episodes
  {
    hide Fold, LiveIsFold, Tidy, Base, Live, Picked, Adopted, AllPlaced;
    SuffixCount(o, c, t);
    LiveCount(eps, o);
    PickedIsLive(eps, r, a.adopted, Base(o, c), |eps|);
    assert eps[..|eps|] == eps && r[..|r|] == r;
    PicksPlaced(eps, Base(o, c), t, a, Picked(r, a.adopted));
  }

  lemma PicksPlaced(eps: seq<Episode>, base: nat, t: seq<Record>, a: Adoption, p: seq<Episode>)
    requires AdoptsLive(eps, base, Fold(t), a) && |Live(eps)| == base + |Fold(t)|
    requires PicksFrom(p, AllPlaced(eps, base, t), Live(eps), base)
    ensures p == a.episodes
  {
    AdoptsCount(eps, base, t, a);
    hide Fold, Live, AdoptsLive, Placed;
    forall j: nat | j < |p| ensures p[j] == a.episodes[j] {
      PlacedAdopted(eps, base, t, a, j);
      assert p[(base + j) - base] == AllPlaced(eps, base, t)[Live(eps)[base + j]];
    }
  }

  lemma AdoptsCount(eps: seq<Episode>, base: nat, t: seq<Record>, a: Adoption)
    requires AdoptsLive(eps, base, Fold(t), a)
    ensures |a.episodes| == |Fold(t)|
  {
  }

  // ---------------------------------------------------------------- the compaction theorem

  lemma AllBehindCut(o: seq<Record>, horizon: int)
    requires Sorted(o) && o != [] && o[|o| - 1].eventTime < horizon
    ensures Cut(o, horizon) == |o| && forall k :: 0 <= k < |o| ==> o[k].eventTime < horizon
  {
    forall k | 0 <= k < |o| ensures o[k].eventTime < horizon { BehindCut(o, horizon, k); }
  }

  lemma {:induction false} KeepIsSuffix(o: seq<Record>, horizon: int)
    requires Sorted(o)
    ensures Keep(o, horizon, {}) == o[Cut(o, horizon)..]
  {
    if o != [] {
      var n := |o| - 1;
      var c := Cut(o, horizon);
      if o[n].eventTime < horizon {
        AllBehindCut(o, horizon);
        hide Sorted, Cut;
        KeepNothing(o, horizon);
      } else {
        KeepIsSuffix(o[..n], horizon);
        hide Sorted;
        assert c == Cut(o[..n], horizon);
        assert o[c..] == o[..n][c..] + [o[n]];
      }
    }
  }

  lemma {:induction false} KeepNothing(o: seq<Record>, horizon: int)
    requires forall k :: 0 <= k < |o| ==> o[k].eventTime < horizon
    ensures Keep(o, horizon, {}) == []
  {
    if o != [] { KeepNothing(o[..|o| - 1], horizon); }
  }

  ghost predicate Increasing(l: seq<nat>) {
    forall j, k :: 0 <= j < k < |l| ==> l[j] < l[k]
  }

  lemma {:induction false} IncreasingUnique(a: seq<nat>, b: seq<nat>, n: nat)
    requires Increasing(a) && Increasing(b)
    requires forall i: nat :: i in a <==> i in b
    requires forall i: nat :: i in a ==> i < n
    ensures a == b
    decreases n
  {
    if n == 0 {
      if a != [] { var i := SomeEntry(a); assert false; }
      if b != [] { var i := SomeEntry(b); assert false; }
    } else if n - 1 in a {
      var j :| 0 <= j < |a| && a[j] == n - 1;
      var k :| 0 <= k < |b| && b[k] == n - 1;
      LastIsGreatest(a, j);
      LastIsGreatest(b, k);
      IncreasingUnique(a[..j], b[..k], n - 1);
      assert a == a[..j] + [n - 1] && b == b[..k] + [n - 1];
    } else {
      IncreasingUnique(a, b, n - 1);
    }
  }

  lemma SomeEntry(a: seq<nat>) returns (i: nat)
    requires a != []
    ensures i in a
  {
    i := a[0];
  }

  lemma LastIsGreatest(a: seq<nat>, j: nat)
    requires Increasing(a) && j < |a| && forall i: nat :: i in a ==> i <= a[j]
    ensures j == |a| - 1 && forall i: nat :: i in a[..j] <==> i in a && i != a[j]
  {
    assert a[|a| - 1] in a;
    assert a == a[..j] + a[j..];
  }

  lemma LiveUnique(eps: seq<Episode>, l: seq<nat>)
    requires forall j :: 0 <= j < |l| ==> l[j] < |eps| && eps[l[j]].records != map[]
    requires Increasing(l)
    requires forall i: nat :: i < |eps| && eps[i].records != map[] ==> i in l
    ensures Live(eps) == l
  {
    hide Live;
    forall i: nat ensures i in Live(eps) <==> i in l { }
    IncreasingUnique(Live(eps), l, |eps|);
  }

  /** The entries of `l` from `b` on, each lowered by `n`. */
  function Lowered(l: seq<nat>, b: nat, n: nat): (w: seq<nat>)
    requires b <= |l| && forall j :: b <= j < |l| ==> l[j] >= n
    ensures |w| == |l| - b && forall j :: 0 <= j < |w| ==> w[j] == l[b + j] - n
    decreases |l| - b
  {
    if b == |l| then [] else [l[b] - n] + Lowered(l, b + 1, n)
  }

  lemma PlacedAtLive(eps: seq<Episode>, o: seq<Record>, c: nat, t: seq<Record>, q: nat)
    requires Suffix(o, c, t) && LiveIsFold(eps, o) && 0 <= Base(o, c) <= q < |Live(eps)|
    ensures var i := Live(eps)[q];
            q - Base(o, c) < |Fold(t)| &&
            Placed(eps, Base(o, c), t, i) == Fold(t)[q - Base(o, c)].(first := eps[i].first) &&
            Fold(t)[q - Base(o, c)].records != map[] && eps[i].first <= Fold(t)[q - Base(o, c)].first
  {
    hide Fold, Base, Live, Tidy, Restrict, LiveIsFold;
    SuffixCount(o, c, t);
    LiveCount(eps, o);
    var i := Live(eps)[q];
    LivePosition(eps, i);
    assert |Live(eps[..i])| == q;
    LiveRecords(eps, o, i);
    SuffixFold(o, c, t, q - Base(o, c));
    var id := SomeMember(t, q - Base(o, c));
  }

  lemma PlacedLivePosition(eps: seq<Episode>, o: seq<Record>, c: nat, t: seq<Record>, i: nat)
    requires Suffix(o, c, t) && LiveIsFold(eps, o) && Base(o, c) >= 0 && i < |eps|
    requires Placed(eps, Base(o, c), t, i).records != map[]
    ensures Base(o, c) <= |Live(eps[..i])| < |Live(eps)| && Live(eps)[|Live(eps[..i])|] == i
  {
    hide Fold, Base, Live, Tidy, LiveIsFold;
    LivePosition(eps, i);
  }

  /** The placed episodes, without a leading run that holds nothing, are live exactly as the shorter fold. */
  lemma PlacedLiveIsFold(eps: seq<Episode>, o: seq<Record>, c: nat, t: seq<Record>, n: nat)
    requires Suffix(o, c, t) && LiveIsFold(eps, o) && Base(o, c) >= 0 && n <= |eps|
    requires forall i :: 0 <= i < n ==> AllPlaced(eps, Base(o, c), t)[i].records == map[]
    ensures LiveIsFold(AllPlaced(eps, Base(o, c), t)[n..], t)
  {
    hide Fold, Base, Live, Tidy, Placed, LiveIsFold, AllPlaced, Lowered;
    SuffixCount(o, c, t);
    LiveCount(eps, o);
    var b, l := Base(o, c), Live(eps);
    forall q: nat | b <= q < |l| ensures l[q] >= n && Placed(eps, b, t, l[q]).records != map[] {
      BeyondReleased(eps, o, c, t, n, q);
    }
    var w := Lowered(l, b, n);
    PlacedLive(eps, o, c, t, n, w);
    var r := AllPlaced(eps, b, t)[n..];
    forall j: nat | j < |w|
      ensures r[w[j]].records == Fold(t)[j].records && r[w[j]].deployment == Fold(t)[j].deployment
      ensures r[w[j]].first <= Fold(t)[j].first
    {
      PlacedAtLive(eps, o, c, t, b + j);
      PlacedEntry(eps, b, t, l[b + j]);
    }
    LiveIsFoldBy(r, t, w);
  }

  lemma PlacedEntry(eps: seq<Episode>, base: nat, t: seq<Record>, i: nat)
    requires i < |eps|
    ensures AllPlaced(eps, base, t)[i] == Placed(eps, base, t, i)
  {
    hide Placed;
  }

  lemma BeyondReleased(eps: seq<Episode>, o: seq<Record>, c: nat, t: seq<Record>, n: nat, q: nat)
    requires Suffix(o, c, t) && LiveIsFold(eps, o) && 0 <= Base(o, c) <= q < |Live(eps)| && n <= |eps|
    requires forall i :: 0 <= i < n ==> AllPlaced(eps, Base(o, c), t)[i].records == map[]
    ensures Live(eps)[q] >= n && Placed(eps, Base(o, c), t, Live(eps)[q]).records != map[]
  {
    hide Fold, Base, Live, Tidy, Placed, LiveIsFold, AllPlaced;
    PlacedAtLive(eps, o, c, t, q);
    PlacedEntry(eps, Base(o, c), t, Live(eps)[q]);
  }

  lemma PlacedLive(eps: seq<Episode>, o: seq<Record>, c: nat, t: seq<Record>, n: nat, w: seq<nat>)
    requires Suffix(o, c, t) && LiveIsFold(eps, o) && 0 <= Base(o, c) <= |Live(eps)| && n <= |eps|
    requires forall q :: Base(o, c) <= q < |Live(eps)| ==>
               Live(eps)[q] >= n && Placed(eps, Base(o, c), t, Live(eps)[q]).records != map[]
    requires w == Lowered(Live(eps), Base(o, c), n)
    ensures Live(AllPlaced(eps, Base(o, c), t)[n..]) == w
  {
    hide Fold, Base, Live, Tidy, Placed, LiveIsFold, Lowered;
    var r := AllPlaced(eps, Base(o, c), t);
    forall i: nat | i < |r[n..]| && r[n..][i].records != map[] ensures i in w {
      PlacedLivePosition(eps, o, c, t, n + i);
      assert w[|Live(eps[..n + i])| - Base(o, c)] == i;
    }
    LiveUnique(r[n..], w);
  }

  lemma LiveIsFoldBy(eps: seq<Episode>, o: seq<Record>, l: seq<nat>)
    requires Live(eps) == l && |l| == |Fold(o)|
    requires forall j :: 0 <= j < |l| ==>
               var p := eps[l[j]];
               p.records == Fold(o)[j].records && p.deployment == Fold(o)[j].deployment && p.first <= Fold(o)[j].first
    ensures LiveIsFold(eps, o)
  {
  }

  /** `g` is `f` without its first `released` generations and without the records it no longer retains. */
  ghost predicate KeepsIdentities(f: Family, g: Family, released: nat) {
    && |g.generations| == |f.generations| - released && g.pruned == f.pruned + released
    && (forall i :: 0 <= i < |g.generations| ==>
         var was, after := f.generations[i + released], g.generations[i];
         after.number == was.number && after.episode.first == was.episode.first &&
         after.episode.deployment == was.episode.deployment &&
         after.episode.records == Restrict(was.episode.records, Ids(g.ordered)))
    && (forall i :: 0 <= i < released ==> Restrict(f.generations[i].episode.records, Ids(g.ordered)) == map[])
  }

  /**
   * Compacting a well-formed family with nothing pinned: some leading episodes that retain no record are
   * released, every other episode keeps its assigned start, its deployment and its display number and
   * exactly its retained records, and the generation count does not move.
   */
  lemma CompactionKeepsIdentity(f: Family, now: int) returns (released: nat)
    requires WellFormed(f)
    ensures KeepsIdentities(f, CompactFamily(f, now, {}), released)
    ensures WellFormed(CompactFamily(f, now, {}))
    ensures GenerationCount(CompactFamily(f, now, {})) == GenerationCount(f)
  {
    if PrunesNothing(f, now, {}) {
      released := 0;
      hide Prune, WellFormed, KeepsIdentities, Rebuild;
      UnprunedKeepsIdentities(f);
    } else {
      hide PrunesNothing, Prune, WellFormed, KeepsIdentities, Rebuild;
      released := PrunedKeepsIdentities(f, now);
    }
  }

  lemma PrunedKeepsIdentities(f: Family, now: int) returns (released: nat)
    requires WellFormed(f)
    ensures var g := Rebuild(Prune(f, now, {}));
            KeepsIdentities(f, g, released) && WellFormed(g) && GenerationCount(g) == GenerationCount(f)
  {
    hide Cut, Keep, KeepEvidence, Rebuild, KeepsIdentities, LiveIsFold, StrictlySorted, Sorted, Distinct, Punctual,
         Episodes;
    var c := Cut(f.ordered, Horizon(f, now));
    KeepIsSuffix(f.ordered, Horizon(f, now));
    DropIsSuffix(f.ordered, c);
    released := RebuildKeepsIdentities(f, c, f.ordered[c..], Prune(f, now, {}).evidence);
  }

  lemma UnprunedKeepsIdentities(f: Family)
    requires WellFormed(f)
    ensures KeepsIdentities(f, f, 0)
  {
    hide LiveIsFold, StrictlySorted, Restrict;
    NothingLost(Episodes(f.generations), f.ordered);
  }

  lemma RebuildKeepsIdentities(f: Family, c: nat, t: seq<Record>, evidence: map<bytes, Evidence>)
    returns (released: nat)
    requires WellFormed(f) && Suffix(f.ordered, c, t)
    ensures var g := Rebuild(f.(ordered := t, evidence := evidence));
            KeepsIdentities(f, g, released) && WellFormed(g) && GenerationCount(g) == GenerationCount(f)
  {
    hide Arrange, LiveIsFold, Reconstruct, AllPlaced, Sorted, Distinct, Punctual, StrictlySorted, LeadingEmpty,
         Restrict, Ids, Base;
    var eps := Episodes(f.generations);
    ReconstructKeepsPlaces(eps, f.ordered, c, t);
    released := LeadingEmpty(Arrange(AllPlaced(eps, Base(f.ordered, c), t), evidence, f.pruned, f.advancedTo));
    PlacementSummary(f, f.ordered, c, t, evidence, released);
  }

  lemma NothingLost(eps: seq<Episode>, o: seq<Record>)
    requires LiveIsFold(eps, o) && Sorted(o) && Distinct(o)
    ensures forall i :: 0 <= i < |eps| ==> eps[i].records == Restrict(eps[i].records, Ids(o))
  {
    forall i: nat | i < |eps| ensures eps[i].records == Restrict(eps[i].records, Ids(o)) {
      if eps[i].records != map[] {
        LiveRecords(eps, o, i);
        hide Fold, Live, LiveIsFold;
        MembersAreRetained(o, |Live(eps[..i])|);
      }
    }
  }

  /** The generations left of the placed episodes are numbered and named as before. */
  ghost predicate KeepsPlaces(f: Family, t: seq<Record>, gens: seq<Generation>, released: nat) {
    && |gens| == |f.generations| - released
    && (forall i :: 0 <= i < |gens| ==>
         var was := f.generations[i + released];
         gens[i].number == was.number == f.pruned + released + i + 1 && gens[i].episode.first == was.episode.first &&
         gens[i].episode.deployment == was.episode.deployment &&
         gens[i].episode.records == Restrict(was.episode.records, Ids(t)))
    && (forall i :: 0 <= i < released ==> Restrict(f.generations[i].episode.records, Ids(t)) == map[])
  }

  /** Each episode of `r` has its start and deployment in `eps` and the records `t` retains. */
  ghost predicate SamePlaces(eps: seq<Episode>, r: seq<Episode>, t: seq<Record>) {
    && |r| == |eps|
    && forall i :: 0 <= i < |eps| ==>
         r[i].first == eps[i].first && r[i].deployment == eps[i].deployment &&
         r[i].records == Restrict(eps[i].records, Ids(t))
  }

  lemma ArrangedPlaces(f: Family, t: seq<Record>, r: seq<Episode>, evidence: map<bytes, Evidence>, released: nat)
    requires SamePlaces(Episodes(f.generations), r, t)
    requires released == LeadingEmpty(Arrange(r, evidence, f.pruned, f.advancedTo))
    requires forall i :: 0 <= i < |f.generations| ==> f.generations[i].number == f.pruned + i + 1
    ensures KeepsPlaces(f, t, Arrange(r, evidence, f.pruned, f.advancedTo)[released..], released)
    ensures Episodes(Arrange(r, evidence, f.pruned, f.advancedTo)[released..]) == r[released..]
    ensures forall i :: 0 <= i < released ==> r[i].records == map[]
  {
    hide AttachedTo, StatusAt, Restrict, Ids;
  }

  lemma PlacementSummary(f: Family, o: seq<Record>, c: nat, t: seq<Record>, evidence: map<bytes, Evidence>,
                         released: nat)
    requires WellFormed(f) && o == f.ordered && Suffix(o, c, t) && Base(o, c) >= 0
    requires var all := Arrange(AllPlaced(Episodes(f.generations), Base(o, c), t), evidence, f.pruned, f.advancedTo);
             released == LeadingEmpty(all)
    ensures var gens := Arrange(AllPlaced(Episodes(f.generations), Base(o, c), t), evidence, f.pruned, f.advancedTo)[released..];
            LiveIsFold(Episodes(gens), t) && StrictlySorted(Episodes(gens)) && KeepsPlaces(f, t, gens, released)
  {
    hide Fold, LiveIsFold, Arrange, LeadingEmpty, KeepsPlaces, SamePlaces, AllPlaced, Tidy, Base, StrictlySorted,
         Sorted, Distinct, Punctual;
    var eps := Episodes(f.generations);
    var r := AllPlaced(eps, Base(o, c), t);
    AllPlacedKeep(eps, o, c, t);
    ArrangedPlaces(f, t, r, evidence, released);
    PlacedLiveIsFold(eps, o, c, t, released);
    SamePlacesSorted(eps, r, t, released);
  }

  lemma AllPlacedKeep(eps: seq<Episode>, o: seq<Record>, c: nat, t: seq<Record>)
    requires Suffix(o, c, t) && LiveIsFold(eps, o) && Base(o, c) >= 0
    ensures SamePlaces(eps, AllPlaced(eps, Base(o, c), t), t)
  {
    hide Fold, LiveIsFold, Tidy, Base, Restrict, Ids, Placed, AllPlaced;
    forall i: nat | i < |eps|
      ensures var p := AllPlaced(eps, Base(o, c), t)[i];
              p.first == eps[i].first && p.deployment == eps[i].deployment &&
              p.records == Restrict(eps[i].records, Ids(t))
    {
      PlacedEntry(eps, Base(o, c), t, i);
      PlacedIdentity(eps, o, c, t, i);
    }
  }

  lemma SamePlacesSorted(eps: seq<Episode>, r: seq<Episode>, t: seq<Record>, n: nat)
    requires StrictlySorted(eps) && SamePlaces(eps, r, t) && n <= |r|
    ensures StrictlySorted(r[n..])
  {
    hide StartsBefore, Restrict, Ids;
    SameKeysSorted(eps, r);
  }

  /** Well-formedness is where every family starts: a family nothing was released from has it. */
  lemma IntactIsWellFormed(f: Family)
    requires Intact(f) && Punctual(f.ordered)
    ensures WellFormed(f)
  {
    hide Fold, Arrange, StartsBefore, Live, Punctual;
    var o := f.ordered;
    EpisodesOfArranged(Fold(o), f.evidence, 0, f.advancedTo);
    FoldIsLive(o);
    NumbersOfArranged(Fold(o), f.evidence, f.advancedTo);
    forall i, j | 0 <= i < j < |Fold(o)| ensures StartsBefore(Fold(o)[i], Fold(o)[j]) { FoldStrictlySorted(o, i, j); }
  }

  lemma NumbersOfArranged(eps: seq<Episode>, evidence: map<bytes, Evidence>, at: Option<int>)
    ensures forall i :: 0 <= i < |eps| ==> Arrange(eps, evidence, 0, at)[i].number == i + 1
  {
    hide AttachedTo, StatusAt;
  }

  lemma FoldIsLive(o: seq<Record>)
    requires Tidy(o)
    ensures LiveIsFold(Fold(o), o)
  {
    hide Fold, Tidy;
    forall i: nat | i < |Fold(o)| ensures Fold(o)[i].records != map[] { var id := SomeMember(o, i); }
    var w: seq<nat> := seq(|Fold(o)|, j => j);
    forall i: nat | i < |Fold(o)| ensures i in w { assert w[i] == i; }
    LiveUnique(Fold(o), w);
  }

  lemma FoldStrictlySorted(s: seq<Record>, i: nat, j: nat)
    requires Tidy(s) && i < j < |Fold(s)|
    ensures StartsBefore(Fold(s)[i], Fold(s)[j])
  {
    var a := EpisodeStart(s, i);
    var b := EpisodeStart(s, j);
    hide Fold, Ord, Starts;
    if b <= a { OrdMonotone(s, b, a); }
    assert SortsBefore(s[a], s[b]);
    if s[a].eventTime == s[b].eventTime && s[a].deployment == s[b].deployment {
      NoGapBetween(s, a, b);
      OrdConstant(s, a, b);
    }
  }

  lemma NoGapBetween(s: seq<Record>, a: nat, b: nat)
    requires Tidy(s) && a < b < |s| && s[a].eventTime == s[b].eventTime && s[a].deployment == s[b].deployment
    ensures forall l :: a < l <= b ==> !Starts(s, l)
  {
    hide Starts;
    forall l | a < l <= b ensures !Starts(s, l) {
      StartsAtGap(s, l);
      SameMoment(s, a, l, b);
      SameMoment(s, a, l - 1, b);
    }
  }

  lemma SameMoment(s: seq<Record>, a: nat, l: nat, b: nat)
    requires Tidy(s) && a <= l <= b < |s| && s[a].eventTime == s[b].eventTime && s[a].deployment == s[b].deployment
    ensures s[l].eventTime == s[a].eventTime && s[l].deployment == s[a].deployment
  {
    if a < l < b {
      assert SortsBefore(s[a], s[l]) && SortsBefore(s[l], s[b]);
      if s[l].deployment != s[a].deployment {
        LessTransitive(s[a].deployment, s[l].deployment, s[b].deployment);
        LessIrreflexive(s[a].deployment);
        assert false;
      }
    }
  }
}
