/** The reconstruction order, the episode fold, and why one insertion leaves assigned identities alone. */
module IncidentFold {
  import opened Basics
  import opened IncidentModel

  // ---------------------------------------------------------------- the order

  lemma OrderTransitive(a: Record, b: Record, c: Record)
    requires SortsBefore(a, b) && SortsBefore(b, c)
    ensures SortsBefore(a, c)
  {
    if a.deployment != b.deployment && b.deployment != c.deployment && Less(a.deployment, b.deployment) && Less(b.deployment, c.deployment) {
      LessTransitive(a.deployment, b.deployment, c.deployment);
      if a.deployment == c.deployment { LessIrreflexive(a.deployment); }
    }
    if Less(a.id, b.id) && Less(b.id, c.id) { LessTransitive(a.id, b.id, c.id); }
  }

  lemma OrderAsymmetric(a: Record, b: Record)
    ensures !(SortsBefore(a, b) && SortsBefore(b, a))
  {
    if SortsBefore(a, b) && SortsBefore(b, a) {
      OrderTransitive(a, b, a);
      LessIrreflexive(a.id);
    }
  }

  lemma OrderTotal(a: Record, b: Record)
    requires a.id != b.id
    ensures SortsBefore(a, b) || SortsBefore(b, a)
  {
    LessTotal(a.deployment, b.deployment);
    LessTotal(a.id, b.id);
  }

  lemma FirstMember(t: seq<Record>)
    requires t != []
    ensures exists r :: r in t
  {
    assert t[0] in t;
  }

  lemma LastIn(s: seq<Record>, t: seq<Record>)
    requires Sorted(s) && Sorted(t) && s != [] && t != [] && s[|s| - 1] in t && t[|t| - 1] in s
    ensures s[|s| - 1] == t[|t| - 1]
  {
    hide SortsBefore;
    var a, b := s[|s| - 1], t[|t| - 1];
    if a != b {
      var i :| 0 <= i < |t| && t[i] == a;
      var k :| 0 <= k < |s| && s[k] == b;
      OrderAsymmetric(a, b);
      assert false;
    }
  }

  lemma WithoutLast(s: seq<Record>, r: Record)
    requires Sorted(s) && s != []
    ensures r in s[..|s| - 1] <==> r in s && r != s[|s| - 1]
  {
    hide SortsBefore;
    var n := |s| - 1;
    assert s == s[..n] + [s[n]];
    if r in s[..n] {
      var k :| 0 <= k < n && s[k] == r;
      OrderAsymmetric(s[k], s[n]);
    }
  }

  /** Two sorted sequences of the same records are the same sequence: arrival order is forgotten. */
  lemma {:induction false} SortedUnique(s: seq<Record>, t: seq<Record>)
    requires Sorted(s) && Sorted(t)
    requires forall r :: r in s <==> r in t
    ensures s == t
    decreases |s|
  {
    hide SortsBefore;
    if s == [] {
      if t != [] { FirstMember(t); assert false; }
    } else {
      assert s[|s| - 1] in s && s[|s| - 1] in t && t != [];
      assert t[|t| - 1] in t && t[|t| - 1] in s;
      LastIn(s, t);
      var s', t' := s[..|s| - 1], t[..|t| - 1];
      assert s == s' + [s[|s| - 1]] && t == t' + [t[|t| - 1]];
      forall r ensures r in s' <==> r in t' {
        WithoutLast(s, r);
        WithoutLast(t, r);
      }
      SortedUnique(s', t');
    }
  }

  lemma {:induction false} RankSplits(s: seq<Record>, r: Record)
    requires Sorted(s)
    ensures forall i :: 0 <= i < Rank(s, r) ==> SortsBefore(s[i], r)
    ensures forall i :: Rank(s, r) <= i < |s| ==> !SortsBefore(s[i], r)
  {
    if s != [] {
      if SortsBefore(s[|s| - 1], r) {
        forall i | 0 <= i < |s| - 1 ensures SortsBefore(s[i], r) { OrderTransitive(s[i], s[|s| - 1], r); }
      } else {
        RankSplits(s[..|s| - 1], r);
        var p := s[..|s| - 1];
        forall i | 0 <= i < Rank(s, r) ensures SortsBefore(s[i], r) { assert p[i] == s[i]; }
        forall i | Rank(s, r) <= i < |s| ensures !SortsBefore(s[i], r) { if i < |p| { assert p[i] == s[i]; } }
      }
    }
  }

  ghost predicate Distinct(s: seq<Record>) {
    forall i, j :: 0 <= i < j < |s| ==> s[i].id != s[j].id
  }

  /** `o` is a reconstruction order and `x` is a record it does not hold. */
  ghost predicate Fresh(o: seq<Record>, x: Record) {
    Sorted(o) && Distinct(o) && forall i :: 0 <= i < |o| ==> o[i].id != x.id
  }

  function Inserted(o: seq<Record>, x: Record): seq<Record> {
    InsertAt(o, Rank(o, x), x)
  }

  lemma InsertKeepsOrder(o: seq<Record>, x: Record)
    requires Fresh(o, x)
    ensures Sorted(Inserted(o, x)) && Distinct(Inserted(o, x))
    ensures |Inserted(o, x)| == |o| + 1
    ensures forall r :: r in Inserted(o, x) <==> r in o || r == x
  {
    RankSplits(o, x);
    var j, n := Rank(o, x), Inserted(o, x);
    forall i | j <= i < |o| ensures SortsBefore(x, o[i]) { OrderTotal(o[i], x); }
    assert forall i :: 0 <= i < j ==> n[i] == o[i];
    assert n[j] == x;
    assert forall i :: j < i < |n| ==> n[i] == o[i - 1];
    forall r ensures r in n <==> r in o || r == x {
      if r in o { var k :| 0 <= k < |o| && o[k] == r; assert n[if k < j then k else k + 1] == r; }
    }
  }

  // ---------------------------------------------------------------- the fold, by position

  /** Which episode of the fold the record at position k falls into. */
  function Ord(s: seq<Record>, k: nat): (i: int)
    requires k < |s|
  {
    |Fold(s[..k + 1])| - 1
  }

  predicate Starts(s: seq<Record>, k: nat)
    requires k < |s|
  {
    var before := Fold(s[..k]);
    before == [] || !Joins(before[|before| - 1], s[k])
  }

  lemma FoldAt(s: seq<Record>, k: nat)
    requires k < |s|
    ensures Fold(s[..k + 1]) == FoldStep(Fold(s[..k]), s[k])
    ensures Ord(s, k) == if Starts(s, k) then |Fold(s[..k])| else |Fold(s[..k])| - 1
    ensures Ord(s, k) >= 0
  {
    assert s[..k + 1][..k] == s[..k];
  }

  lemma OrdStep(s: seq<Record>, k: nat)
    requires k + 1 < |s|
    ensures Ord(s, k + 1) == Ord(s, k) + if Starts(s, k + 1) then 1 else 0
  {
    FoldAt(s, k);
    FoldAt(s, k + 1);
  }

  lemma {:induction false} OrdMonotone(s: seq<Record>, a: nat, b: nat)
    requires a <= b < |s|
    ensures 0 <= Ord(s, a) <= Ord(s, b) < |Fold(s)|
    decreases |s| - a
  {
    FoldAt(s, a);
    if a < b {
      OrdStep(s, a);
      OrdMonotone(s, a + 1, b);
    } else if b + 1 < |s| {
      OrdStep(s, b);
      OrdMonotone(s, b + 1, b + 1);
    } else {
      assert s[..b + 1] == s;
    }
  }

  lemma {:induction false} OrdConstant(s: seq<Record>, a: nat, b: nat)
    requires a <= b < |s|
    ensures Ord(s, a) == Ord(s, b) <==> forall l :: a < l <= b ==> !Starts(s, l)
    decreases b - a
  {
    hide Ord, Starts;
    if a < b {
      OrdConstant(s, a, b - 1);
      OrdStep(s, b - 1);
      OrdMonotone(s, a, b - 1);
    }
  }

  /** Everything the fold determines about episode membership and identity. */
  ghost predicate Shaped(s: seq<Record>) {
    && (forall k :: 0 <= k < |s| ==> 0 <= Ord(s, k) < |Fold(s)|)
    && (forall k :: 0 <= k < |s| ==>
         var g := Fold(s)[Ord(s, k)];
         s[k].id in g.records && g.records[s[k].id] == s[k] && g.deployment == s[k].deployment &&
         g.first <= s[k].eventTime)
    && (forall i, id :: 0 <= i < |Fold(s)| && id in Fold(s)[i].records ==>
         exists k :: 0 <= k < |s| && Ord(s, k) == i && s[k].id == id)
  }

  lemma OrdOfPrefix(s: seq<Record>, n: nat, k: nat)
    requires k < n <= |s|
    ensures Ord(s[..n], k) == Ord(s, k)
    ensures Starts(s[..n], k) == Starts(s, k)
  {
    assert s[..n][..k + 1] == s[..k + 1];
    assert s[..n][..k] == s[..k];
  }

  lemma StepShape(eps: seq<Episode>, r: Record)
    ensures var h := FoldStep(eps, r); var n := |h| - 1;
            n >= 0 && |eps| <= |h| && r.id in h[n].records && h[n].records[r.id] == r &&
            h[n].deployment == r.deployment && h[n].first <= r.eventTime &&
            (forall i :: 0 <= i < |eps| ==>
              h[i].deployment == eps[i].deployment && h[i].first <= eps[i].first &&
              (forall id :: id in eps[i].records ==>
                 id in h[i].records && (id != r.id ==> h[i].records[id] == eps[i].records[id]))) &&
            (forall i, id :: 0 <= i < |h| && id in h[i].records ==>
               (i == n && id == r.id) || (i < |eps| && id in eps[i].records))
  {
    hide WindowCount, Activity;
  }

  /** Record k lies in the episode its position names. */
  ghost predicate InPlace(s: seq<Record>, k: nat) {
    k < |s| && 0 <= Ord(s, k) < |Fold(s)| &&
    var g := Fold(s)[Ord(s, k)];
    s[k].id in g.records && g.records[s[k].id] == s[k] && g.deployment == s[k].deployment && g.first <= s[k].eventTime
  }

  /** A member of an episode is a record whose position names it. */
  ghost predicate Traced(s: seq<Record>, i: nat, id: bytes) {
    exists k :: 0 <= k < |s| && Ord(s, k) == i && s[k].id == id
  }

  lemma {:induction false} FoldPlaces(s: seq<Record>)
    requires Sorted(s) && Distinct(s)
    ensures forall k: nat :: k < |s| ==> InPlace(s, k)
    ensures forall i: nat, id :: i < |Fold(s)| && id in Fold(s)[i].records ==> Traced(s, i, id)
  {
    hide InPlace, Traced, Ord, FoldStep, Sorted;
    if s != [] {
      var n := |s| - 1;
      var p, r := s[..n], s[n];
      assert Sorted(p) && Distinct(p) by { SortedPrefix(s, n); }
      FoldPlaces(p);
      forall k: nat | k < |s| ensures InPlace(s, k) {
        if k < n { PlacedStays(s, k); } else { PlacedLast(s); }
      }
      forall i: nat, id | i < |Fold(s)| && id in Fold(s)[i].records ensures Traced(s, i, id) { TracedStays(s, i, id); }
    }
  }

  lemma SortedPrefix(s: seq<Record>, n: nat)
    requires Sorted(s) && Distinct(s) && n <= |s|
    ensures Sorted(s[..n]) && Distinct(s[..n])
  {
  }

  lemma FoldLast(s: seq<Record>)
    requires s != []
    ensures Fold(s) == FoldStep(Fold(s[..|s| - 1]), s[|s| - 1]) && Ord(s, |s| - 1) == |Fold(s)| - 1
  {
    assert s[..|s|] == s;
  }

  lemma PlacedLast(s: seq<Record>)
    requires s != []
    ensures InPlace(s, |s| - 1)
  {
    FoldLast(s);
    hide Fold, FoldStep, Ord;
    StepShape(Fold(s[..|s| - 1]), s[|s| - 1]);
  }

  lemma PlacedStays(s: seq<Record>, k: nat)
    requires Distinct(s) && k + 1 < |s| && InPlace(s[..|s| - 1], k)
    ensures InPlace(s, k)
  {
    FoldLast(s);
    OrdOfPrefix(s, |s| - 1, k);
    assert s[k].id != s[|s| - 1].id && s[..|s| - 1][k] == s[k];
    hide Fold, FoldStep, Ord, Distinct;
    StepShape(Fold(s[..|s| - 1]), s[|s| - 1]);
  }

  lemma TracedStays(s: seq<Record>, i: nat, id: bytes)
    requires s != [] && i < |Fold(s)| && id in Fold(s)[i].records
    requires i < |Fold(s[..|s| - 1])| && id in Fold(s[..|s| - 1])[i].records ==> Traced(s[..|s| - 1], i, id)
    ensures Traced(s, i, id)
  {
    var n := |s| - 1;
    FoldLast(s);
    hide Fold, FoldStep;
    StepShape(Fold(s[..n]), s[n]);
    if i == |Fold(s)| - 1 && id == s[n].id {
      assert Ord(s, n) == i && s[n].id == id;
    } else {
      var k :| 0 <= k < n && Ord(s[..n], k) == i && s[..n][k].id == id;
      OrdOfPrefix(s, n, k);
      hide Ord;
      assert Ord(s, k) == i && s[k].id == id;
    }
  }

  lemma FoldShaped(s: seq<Record>)
    requires Sorted(s) && Distinct(s)
    ensures Shaped(s)
  {
    hide Fold, Ord, Sorted, Distinct;
    FoldPlaces(s);
    forall k | 0 <= k < |s|
      ensures 0 <= Ord(s, k) < |Fold(s)|
      ensures var g := Fold(s)[Ord(s, k)];
              s[k].id in g.records && g.records[s[k].id] == s[k] && g.deployment == s[k].deployment &&
              g.first <= s[k].eventTime
    {
      assert InPlace(s, k);
    }
    forall i, id | 0 <= i < |Fold(s)| && id in Fold(s)[i].records
      ensures exists k :: 0 <= k < |s| && Ord(s, k) == i && s[k].id == id
    {
      assert Traced(s, i, id);
    }
    hide InPlace, Traced;
  }

  /** The position at which episode i begins. */
  lemma {:induction false} EpisodeStart(s: seq<Record>, i: nat) returns (k: nat)
    requires Sorted(s) && Distinct(s) && i < |Fold(s)|
    ensures k < |s| && Ord(s, k) == i && Starts(s, k)
    ensures Fold(s)[i].first == s[k].eventTime && Fold(s)[i].deployment == s[k].deployment
    ensures forall l :: 0 <= l < k ==> Ord(s, l) < i
  {
    var n := |s| - 1;
    var p := s[..n];
    FoldAt(s, n);
    assert s[..n + 1] == s;
    if i == Ord(s, n) && Starts(s, n) {
      k := n;
      forall l | 0 <= l < k ensures Ord(s, l) < i { OrdOfPrefix(s, n, l); OrdMonotone(p, l, l); }
    } else {
      k := EpisodeStart(p, i);
      OrdOfPrefix(s, n, k);
      forall l | 0 <= l < k ensures Ord(s, l) < i { OrdOfPrefix(s, n, l); }
      assert p[k] == s[k];
    }
  }

  /** Folding further records never changes the identity of an episode already begun. */
  lemma FoldPrefixIdentity(s: seq<Record>, n: nat, i: nat)
    requires Sorted(s) && Distinct(s) && n <= |s| && i < |Fold(s[..n])|
    ensures i < |Fold(s)|
    ensures Fold(s)[i].first == Fold(s[..n])[i].first && Fold(s)[i].deployment == Fold(s[..n])[i].deployment
  {
    var p := s[..n];
    var k := EpisodeStart(p, i);
    OrdOfPrefix(s, n, k);
    OrdMonotone(s, k, k);
    var k' := EpisodeStart(s, i);
    if k' < k { OrdOfPrefix(s, n, k'); }
  }

  // ---------------------------------------------------------------- one insertion, two folds

  /** Position in the extended order of the record at position k. */
  function Shift(o: seq<Record>, x: Record, k: nat): nat {
    if k < Rank(o, x) then k else k + 1
  }

  /** `b`'s open episode absorbs at least what `a`'s would. */
  predicate Absorbs(a: seq<Episode>, b: seq<Episode>) {
    a != [] && b != [] && a[|a| - 1].deployment == b[|b| - 1].deployment &&
    a[|a| - 1].lastActivity <= b[|b| - 1].lastActivity
  }

  predicate Opens(eps: seq<Episode>, r: Record) {
    eps == [] || !Joins(eps[|eps| - 1], r)
  }

  lemma AbsorbsStep(a: seq<Episode>, b: seq<Episode>, r: Record)
    requires Absorbs(a, b) || (Opens(a, r) && !Opens(b, r))
    ensures Absorbs(FoldStep(a, r), FoldStep(b, r))
    ensures Absorbs(a, b) && Opens(b, r) ==> Opens(a, r)
  {
  }

  /** Once an old start is absorbed, the extended fold only ever has fewer starts. */
  lemma {:induction false} Coarser(o: seq<Record>, x: Record, q: nat, l: nat)
    requires Rank(o, x) <= q <= l < |o|
    requires Starts(o, q) && !Starts(Inserted(o, x), q + 1)
    ensures Absorbs(Fold(o[..l + 1]), Fold(Inserted(o, x)[..l + 2]))
    ensures l > q && Starts(Inserted(o, x), l + 1) ==> Starts(o, l)
    decreases l
  {
    hide Fold, FoldStep, Joins, Rank, Absorbs, Ord;
    var n := Inserted(o, x);
    Shifted(o, x, l);
    FoldAt(o, l);
    FoldAt(n, l + 1);
    if l > q { Coarser(o, x, q, l - 1); }
    AbsorbsStep(Fold(o[..l]), Fold(n[..l + 1]), o[l]);
  }

  /** Up to the insertion point both folds agree. */
  lemma SamePrefix(o: seq<Record>, x: Record, k: nat)
    requires k < Rank(o, x)
    ensures k < |o| && Ord(Inserted(o, x), k) == Ord(o, k) && Starts(Inserted(o, x), k) == Starts(o, k)
  {
    var n := Inserted(o, x);
    assert n[..k + 1] == o[..k + 1] && n[..k] == o[..k];
  }

  lemma Shifted(o: seq<Record>, x: Record, k: nat)
    requires k < |o|
    ensures Shift(o, x, k) < |Inserted(o, x)| && Inserted(o, x)[Shift(o, x, k)] == o[k]
  {
  }

  /** An episode absorbed at its start is absorbed whole: its other records cannot end up elsewhere. */
  lemma AbsorbedWhole(o: seq<Record>, x: Record, y: nat, q: nat, z: nat)
    requires Fresh(o, x) && y < q < |o| && q <= z < |o|
    requires Ord(o, y) < Ord(o, q) && Ord(o, q) == Ord(o, z) && Starts(o, q)
    requires Ord(Inserted(o, x), Shift(o, x, y)) == Ord(Inserted(o, x), Shift(o, x, q))
    ensures Ord(Inserted(o, x), Shift(o, x, q)) == Ord(Inserted(o, x), Shift(o, x, z))
  {
    hide Fold, Ord, Rank, Starts, FoldStep, Joins, Sorted, Distinct;
    var n := Inserted(o, x);
    var y', q', z' := Shift(o, x, y), Shift(o, x, q), Shift(o, x, z);
    assert |n| == |o| + 1;
    hide Inserted, InsertAt;
    OrdConstant(n, y', q');
    assert !Starts(n, q');
    if q < Rank(o, x) { SamePrefix(o, x, q); }
    OrdConstant(o, q, z);
    forall l | q' < l <= z' ensures !Starts(n, l) { Coarser(o, x, q, l - 1); }
    OrdConstant(n, q', z');
  }

  // ---------------------------------------------------------------- adoption changes nothing

  lemma AdoptAt(prior: seq<Episode>, folded: seq<Episode>, n: nat)
    requires n < |folded|
    ensures AdoptAll(prior, folded[..n + 1]) == AdoptNext(prior, AdoptAll(prior, folded[..n]), folded[n])
  {
    hide AdoptNext;
    assert folded[..n + 1][..n] == folded[..n];
  }

  lemma {:induction false} CursorMonotone(prior: seq<Episode>, folded: seq<Episode>, a: nat, b: nat)
    requires a <= b <= |folded|
    ensures AdoptAll(prior, folded[..a]).cursor <= AdoptAll(prior, folded[..b]).cursor
    decreases b
  {
    if a < b {
      hide *;
      CursorMonotone(prior, folded, a, b - 1);
      AdoptAt(prior, folded, b - 1);
    }
  }

  /** In a fold every record belongs to exactly one episode. */
  lemma AssignedIsOrd(o: seq<Record>, k: nat)
    requires Sorted(o) && Distinct(o) && k < |o|
    ensures Assigned(Fold(o), o[k].id) == Some(Ord(o, k))
  {
    FoldShaped(o);
    hide Fold, Ord, Assigned;
    var at := Assigned(Fold(o), o[k].id);
    assert o[k].id in Fold(o)[Ord(o, k)].records;
    assert at.Some?;
    var l :| 0 <= l < |o| && Ord(o, l) == at.value && o[l].id == o[k].id;
  }

  lemma CandidateRecord(o: seq<Record>, x: Record, i: nat, cursor: nat, m: nat) returns (z: nat)
    requires Fresh(o, x) && i < |Fold(Inserted(o, x))|
    requires Candidate(Fold(o), Fold(Inserted(o, x))[i], cursor, m)
    ensures z < |o| && Ord(o, z) == m && Ord(Inserted(o, x), Shift(o, x, z)) == i
  {
    var n := Inserted(o, x);
    InsertKeepsOrder(o, x);
    FoldPlaces(n);
    FoldPlaces(o);
    hide Fold, Ord, Assigned, Inserted, Rank, InPlace, Traced, Sorted;
    var id :| id in Fold(n)[i].records && Assigned(Fold(o), id) == Some(m);
    assert Traced(n, i, id) && Traced(o, m, id);
    z := SharedRecord(o, x, i, m, id);
  }

  lemma SharedRecord(o: seq<Record>, x: Record, i: nat, m: nat, id: bytes) returns (z: nat)
    requires Distinct(Inserted(o, x)) && Traced(Inserted(o, x), i, id) && Traced(o, m, id)
    ensures z < |o| && Ord(o, z) == m && Ord(Inserted(o, x), Shift(o, x, z)) == i
  {
    hide Ord, Inserted, Rank;
    var n := Inserted(o, x);
    var k :| 0 <= k < |n| && Ord(n, k) == i && n[k].id == id;
    z :| 0 <= z < |o| && Ord(o, z) == m && o[z].id == id;
    Shifted(o, x, z);
    assert n[Shift(o, x, z)].id == n[k].id;
  }

  lemma RecordIsCandidate(o: seq<Record>, x: Record, q: nat, cursor: nat)
    requires Fresh(o, x) && q < |o| && cursor <= Ord(o, q)
    ensures Ord(o, q) >= 0 && 0 <= Ord(Inserted(o, x), Shift(o, x, q)) < |Fold(Inserted(o, x))|
    ensures Candidate(Fold(o), Fold(Inserted(o, x))[Ord(Inserted(o, x), Shift(o, x, q))], cursor, Ord(o, q))
  {
    InsertKeepsOrder(o, x);
    FoldShaped(Inserted(o, x));
    OrdMonotone(o, q, q);
    Shifted(o, x, q);
    AssignedIsOrd(o, q);
  }

  /** An adopted identity never begins earlier than the episode that adopts it. */
  lemma AdoptedStart(o: seq<Record>, x: Record, i: nat, m: nat)
    requires Fresh(o, x) && i < |Fold(Inserted(o, x))|
    requires Match(Fold(o), Fold(Inserted(o, x))[i], AdoptAll(Fold(o), Fold(Inserted(o, x))[..i]).cursor) == Some(m)
    ensures m < |Fold(o)| && Fold(o)[m].first >= Fold(Inserted(o, x))[i].first
  {
    var n := Inserted(o, x);
    var P, G := Fold(o), Fold(n);
    InsertKeepsOrder(o, x);
    hide Fold, Ord, Inserted, Rank, Starts, Match, Candidate, AdoptAll;
    var cursor := AdoptAll(P, G[..i]).cursor;
    var z := CandidateRecord(o, x, i, cursor, m);
    OrdMonotone(o, z, z);
    if P[m].first < G[i].first {
      var q := EpisodeStart(o, m);
      var s := EpisodeStart(n, i);
      Shifted(o, x, q);
      var q' := Shift(o, x, q);
      assert q' < s;
      OrdMonotone(n, q', s);
      var i' := Ord(n, q');
      assert i' < i;
      CursorMonotone(P, G, i', i);
      CursorMonotone(P, G, i' + 1, i);
      AdoptAt(P, G, i');
      var c := AdoptAll(P, G[..i']).cursor;
      RecordIsCandidate(o, x, q, c);
      var m' := Match(P, G[i'], c);
      assert m'.Some? && m'.value < m;
      var y := CandidateRecord(o, x, i', c, m'.value);
      if q <= y { OrdMonotone(o, q, y); }
      AbsorbedWhole(o, x, y, q, z);
      assert false;
    }
  }

  lemma AdoptUnchanged(prior: seq<Episode>, a: Adoption, g: Episode)
    requires var m := Match(prior, g, a.cursor); m.Some? ==> m.value < |prior| && prior[m.value].first >= g.first
    ensures AdoptNext(prior, a, g).episodes == a.episodes + [g]
  {
  }

  lemma {:induction false} AdoptionIsIdentity(o: seq<Record>, x: Record, n: nat)
    requires Fresh(o, x) && n <= |Fold(Inserted(o, x))|
    ensures AdoptAll(Fold(o), Fold(Inserted(o, x))[..n]).episodes == Fold(Inserted(o, x))[..n]
  {
    hide Fold, FoldStep, Inserted, InsertAt, Rank, Match, AdoptNext, Adopt;
    var G := Fold(Inserted(o, x));
    if n > 0 {
      AdoptionIsIdentity(o, x, n - 1);
      AdoptAt(Fold(o), G, n - 1);
      var a := AdoptAll(Fold(o), G[..n - 1]);
      var m := Match(Fold(o), G[n - 1], a.cursor);
      if m.Some? { AdoptedStart(o, x, n - 1, m.value); }
      AdoptUnchanged(Fold(o), a, G[n - 1]);
      assert G[..n] == G[..n - 1] + [G[n - 1]];
    }
  }

  lemma {:induction false} NoShells(prior: seq<Episode>, adopted: set<nat>, held: set<bytes>)
    requires forall i :: 0 <= i < |prior| ==> RetainsAnyOf(prior[i], held)
    ensures Shells(prior, adopted, held) == []
  {
    if prior != [] { NoShells(prior[..|prior| - 1], adopted, held); }
  }

  lemma {:induction false} StableSortIdentity(s: seq<Episode>)
    requires forall i, j :: 0 <= i < j < |s| ==> !StartsBefore(s[j], s[i])
    ensures StableSort(s) == s
  {
    if s != [] { StableSortIdentity(s[..|s| - 1]); }
  }

  lemma FoldSortedByStart(s: seq<Record>, i: nat, j: nat)
    requires Sorted(s) && Distinct(s) && i < j < |Fold(s)|
    ensures !StartsBefore(Fold(s)[j], Fold(s)[i])
  {
    var a := EpisodeStart(s, i);
    var b := EpisodeStart(s, j);
    if b <= a { OrdMonotone(s, b, a); }
    if s[a].deployment == s[b].deployment { LessIrreflexive(s[a].deployment); }
    if Less(s[a].deployment, s[b].deployment) && Less(s[b].deployment, s[a].deployment) {
      LessTransitive(s[a].deployment, s[b].deployment, s[a].deployment);
      LessIrreflexive(s[a].deployment);
    }
  }

  lemma FoldRetained(o: seq<Record>, held: set<bytes>, i: nat)
    requires Sorted(o) && Distinct(o) && i < |Fold(o)| && Ids(o) <= held
    ensures RetainsAnyOf(Fold(o)[i], held)
  {
    FoldShaped(o);
    var k := EpisodeStart(o, i);
    assert o[k] in o && o[k].id in held && o[k].id in Fold(o)[i].records;
  }

  /**
   * rebuild after an out-of-order arrival is the plain fold: adoption, shells and the final sort
   * leave every episode as the fold made it.
   */
  lemma ReconstructIsFold(o: seq<Record>, x: Record)
    requires Fresh(o, x)
    ensures Reconstruct(Fold(o), Inserted(o, x)) == Fold(Inserted(o, x))
  {
    var n := Inserted(o, x);
    InsertKeepsOrder(o, x);
    AdoptionIsIdentity(o, x, |Fold(n)|);
    assert Fold(n)[..|Fold(n)|] == Fold(n);
    var a := AdoptAll(Fold(o), Fold(n));
    assert Ids(o) <= Ids(n) by { forall r | r in o ensures r.id in Ids(n) { assert r in n; } }
    forall i | 0 <= i < |Fold(o)| ensures RetainsAnyOf(Fold(o)[i], Ids(n)) { FoldRetained(o, Ids(n), i); }
    NoShells(Fold(o), a.adopted, Ids(n));
    assert a.episodes + [] == Fold(n);
    forall i, j | 0 <= i < j < |Fold(n)| ensures !StartsBefore(Fold(n)[j], Fold(n)[i]) { FoldSortedByStart(n, i, j); }
    StableSortIdentity(Fold(n));
  }
}
