/** The projected size of a request: exact when returned, refused only when it or a shared weight is too large. */
module Materialization {
  import opened Basics
  import opened Wire
  import opened WireSanitizer
  import opened WireCounts

  const BYTE_EXPANSION := 4
  const NODE_OVERHEAD := 64
  const MAX_NODES := 320_000

  /** weightedMessage. */
  function Weighted(b: bytes, nodes: nat): nat {
    |b| * BYTE_EXPANSION + nodes * NODE_OVERHEAD
  }

  /** What a message is counted as: a record, or the attributes of a resource or a scope. */
  datatype Sort = RecordSort | AttributesSort(field: nat)

  function Count(b: bytes, sort: Sort, depth: nat): Option<nat> {
    match sort
    case RecordSort => CountRecord(b, depth)
    case AttributesSort(field) => CountEntries(b, field, 1, depth)
  }

  /** The message can be counted within the node limit. */
  predicate Countable(b: bytes, sort: Sort, depth: nat) {
    Count(b, sort, depth).Some? && Count(b, sort, depth).value <= MAX_NODES
  }

  function Weight(b: bytes, sort: Sort, depth: nat): nat {
    if Countable(b, sort, depth) then Weighted(b, Count(b, sort, depth).value + 1) else 0
  }

  function SumWeights(ms: seq<bytes>, sort: Sort, depth: nat): nat {
    if ms == [] then 0 else Weight(ms[0], sort, depth) + SumWeights(ms[1..], sort, depth)
  }

  const RESOURCE_SORT := AttributesSort(RESOURCE_ATTRIBUTES)
  const SCOPE_SORT := AttributesSort(SCOPE_ATTRIBUTES)

  // ---------------------------------------------------------------- the true sum

  /** What one record materializes: itself, and its own copy of everything it inherits. */
  function ViewWeight(v: View, depth: nat): nat {
    Weight(v.record, RecordSort, depth) + SumWeights(v.scope, SCOPE_SORT, depth) + SumWeights(v.resource, RESOURCE_SORT, depth)
  }

  function TrueSum(vs: seq<View>, depth: nat): nat {
    if vs == [] then 0 else TrueSum(vs[..|vs| - 1], depth) + ViewWeight(vs[|vs| - 1], depth)
  }

  lemma {:induction false} TrueSumAppend(a: seq<View>, b: seq<View>, depth: nat)
    ensures TrueSum(a + b, depth) == TrueSum(a, depth) + TrueSum(b, depth)
  {
    hide ViewWeight;
    if b == [] {
      assert a + b == a;
    } else {
      TrueSumAppend(a, b[..|b| - 1], depth);
      assert (a + b)[..|a + b| - 1] == a + b[..|b| - 1];
    }
  }

  // ---------------------------------------------------------------- what can be counted

  predicate AllCountable(ms: seq<bytes>, sort: Sort, depth: nat) {
    forall i :: 0 <= i < |ms| ==> Countable(ms[i], sort, depth)
  }

  predicate CountableScopeLogs(b: bytes, depth: nat) {
    Fields(b).Some? && AllCountable(Part1(b, SCOPE), SCOPE_SORT, depth) &&
    AllCountable(Part1(b, LOG_RECORD), RecordSort, depth)
  }

  predicate CountableResourceLogs(b: bytes, depth: nat) {
    && Fields(b).Some? && AllCountable(Part1(b, RESOURCE), RESOURCE_SORT, depth)
    && forall m :: m in Part1(b, SCOPE_LOGS) ==> CountableScopeLogs(m, depth)
  }

  predicate CountableRequest(b: bytes, depth: nat) {
    Fields(b).Some? && forall m :: m in Part1(b, 1) ==> CountableResourceLogs(m, depth)
  }

  function ScopeShare(b: bytes, depth: nat): nat {
    SumWeights(Part1(b, SCOPE), SCOPE_SORT, depth)
  }

  function ResourceShare(b: bytes, depth: nat): nat {
    SumWeights(Part1(b, RESOURCE), RESOURCE_SORT, depth)
  }

  /** No shared weight alone exceeds the maximum, whether or not a record inherits it. */
  predicate SharesFit(b: bytes, depth: nat, maximum: nat) {
    forall r :: r in Part1(b, 1) ==> ResourceSharesFit(r, depth, maximum)
  }

  predicate ResourceSharesFit(b: bytes, depth: nat, maximum: nat) {
    ResourceShare(b, depth) <= maximum && forall s :: s in Part1(b, SCOPE_LOGS) ==> ScopeShare(s, depth) <= maximum
  }

  // ---------------------------------------------------------------- sums level by level

  /** A shared weight charged once per record. */
  function Times(weight: nat, records: nat): nat {
    weight * records
  }

  lemma TimesDistributes(a: nat, b: nat, n: nat)
    ensures Times(a + b, n) == Times(a, n) + Times(b, n)
    ensures Times(n, a + b) == Times(n, a) + Times(n, b)
    ensures Times(n, 0) == 0 && Times(n, 1) == n
  {
  }

  function ScopeSum(b: bytes, depth: nat): nat {
    SumWeights(Part1(b, LOG_RECORD), RecordSort, depth) + Times(ScopeShare(b, depth), |Part1(b, LOG_RECORD)|)
  }

  function ScopeSums(logs: seq<bytes>, depth: nat): nat {
    if logs == [] then 0 else ScopeSum(logs[0], depth) + ScopeSums(logs[1..], depth)
  }

  function RecordCount(logs: seq<bytes>): nat {
    if logs == [] then 0 else |Part1(logs[0], LOG_RECORD)| + RecordCount(logs[1..])
  }

  function ResourceSum(b: bytes, depth: nat): nat {
    ScopeSums(Part1(b, SCOPE_LOGS), depth) + Times(ResourceShare(b, depth), RecordCount(Part1(b, SCOPE_LOGS)))
  }

  function ResourceSums(logs: seq<bytes>, depth: nat): nat {
    if logs == [] then 0 else ResourceSum(logs[0], depth) + ResourceSums(logs[1..], depth)
  }

  lemma {:induction false} SumWeightsSnoc(ms: seq<bytes>, m: bytes, sort: Sort, depth: nat)
    ensures SumWeights(ms + [m], sort, depth) == SumWeights(ms, sort, depth) + Weight(m, sort, depth)
  {
    hide Weight;
    if ms == [] {
      assert ms + [m] == [m] && [m][1..] == [];
    } else {
      SumWeightsSnoc(ms[1..], m, sort, depth);
      assert (ms + [m])[1..] == ms[1..] + [m];
    }
  }

  lemma {:induction false} RecordViewsSum(records: seq<bytes>, resource: seq<bytes>, scope: seq<bytes>, depth: nat)
    ensures TrueSum(RecordViews(records, resource, scope), depth)
            == SumWeights(records, RecordSort, depth) +
               Times(SumWeights(scope, SCOPE_SORT, depth) + SumWeights(resource, RESOURCE_SORT, depth), |records|)
  {
    hide Weight, Times, SumWeights;
    var each := SumWeights(scope, SCOPE_SORT, depth) + SumWeights(resource, RESOURCE_SORT, depth);
    if records == [] {
      assert RecordViews(records, resource, scope) == [];
      NoWeights(RecordSort, depth);
      TimesDistributes(0, 0, each);
    } else {
      var n := |records| - 1;
      var vs := RecordViews(records, resource, scope);
      RecordViewsSum(records[..n], resource, scope, depth);
      assert vs[..n] == RecordViews(records[..n], resource, scope);
      SumWeightsSnoc(records[..n], records[n], RecordSort, depth);
      assert records[..n] + [records[n]] == records;
      TimesDistributes(n, 1, each);
    }
  }

  lemma NoWeights(sort: Sort, depth: nat)
    ensures SumWeights([], sort, depth) == 0
  {
  }

  lemma ScopeViewsSum(b: bytes, resource: seq<bytes>, depth: nat)
    ensures TrueSum(ScopeViews(b, resource), depth)
            == ScopeSum(b, depth) + Times(SumWeights(resource, RESOURCE_SORT, depth), |Part1(b, LOG_RECORD)|)
  {
    hide TrueSum, SumWeights, Part1, Times;
    RecordViewsSum(Part1(b, LOG_RECORD), resource, Part1(b, SCOPE), depth);
    TimesDistributes(ScopeShare(b, depth), SumWeights(resource, RESOURCE_SORT, depth), |Part1(b, LOG_RECORD)|);
  }

  lemma {:induction false} AllScopeViewsFront(logs: seq<bytes>, resource: seq<bytes>)
    requires logs != []
    ensures AllScopeViews(logs, resource) == ScopeViews(logs[0], resource) + AllScopeViews(logs[1..], resource)
  {
    hide ScopeViews;
    var n := |logs| - 1;
    if n == 0 {
      assert logs[..0] == [] && logs[1..] == [];
    } else {
      AllScopeViewsFront(logs[..n], resource);
      assert logs[..n][1..] == logs[1..][..n - 1];
    }
  }

  lemma NoScopeViews(resource: seq<bytes>, weight: nat, depth: nat)
    ensures TrueSum(AllScopeViews([], resource), depth) == ScopeSums([], depth) + Times(weight, RecordCount([]))
  {
  }

  lemma CountFront(logs: seq<bytes>, depth: nat)
    requires logs != []
    ensures RecordCount(logs) == |Part1(logs[0], LOG_RECORD)| + RecordCount(logs[1..])
    ensures ScopeSums(logs, depth) == ScopeSum(logs[0], depth) + ScopeSums(logs[1..], depth)
  {
    hide Part1, ScopeSum;
  }

  lemma {:induction false} AllScopeViewsSum(logs: seq<bytes>, resource: seq<bytes>, depth: nat)
    ensures TrueSum(AllScopeViews(logs, resource), depth)
            == ScopeSums(logs, depth) + Times(SumWeights(resource, RESOURCE_SORT, depth), RecordCount(logs))
    decreases |logs|
  {
    hide TrueSum, AllScopeViews, RecordCount, ScopeSums, SumWeights, ScopeViews, Part1, ScopeSum, Times;
    var weight := SumWeights(resource, RESOURCE_SORT, depth);
    if logs == [] {
      NoScopeViews(resource, weight, depth);
    } else {
      AllScopeViewsSum(logs[1..], resource, depth);
      AllScopeViewsFront(logs, resource);
      ScopeViewsSum(logs[0], resource, depth);
      TrueSumAppend(ScopeViews(logs[0], resource), AllScopeViews(logs[1..], resource), depth);
      CountFront(logs, depth);
      TimesDistributes(|Part1(logs[0], LOG_RECORD)|, RecordCount(logs[1..]), weight);
    }
  }

  lemma {:induction false} AllResourceViewsFront(logs: seq<bytes>)
    requires logs != []
    ensures AllResourceViews(logs) == ResourceViews(logs[0]) + AllResourceViews(logs[1..])
  {
    hide ResourceViews;
    var n := |logs| - 1;
    if n == 0 {
      assert logs[..0] == [] && logs[1..] == [];
    } else {
      AllResourceViewsFront(logs[..n]);
      assert logs[..n][1..] == logs[1..][..n - 1];
    }
  }

  /** The level-by-level sum is the per-record sum. */
  lemma {:induction false} ResourceSumsAreTrue(logs: seq<bytes>, depth: nat)
    ensures TrueSum(AllResourceViews(logs), depth) == ResourceSums(logs, depth)
    decreases |logs|
  {
    if logs != [] {
      ResourceSumsAreTrue(logs[1..], depth);
      AllResourceViewsFront(logs);
      AllScopeViewsSum(Part1(logs[0], SCOPE_LOGS), Part1(logs[0], RESOURCE), depth);
      hide TrueSum, SumWeights, AllScopeViews, AllResourceViews, Part1, ScopeSums, RecordCount, Times;
      TrueSumAppend(ResourceViews(logs[0]), AllResourceViews(logs[1..]), depth);
    }
  }

  // ---------------------------------------------------------------- the arithmetic

  /** addProjected. */
  method AddProjected(total: nat, amount: nat, maximum: nat) returns (next: nat, ok: bool)
    requires total <= maximum
    ensures ok <==> total + amount <= maximum
    ensures ok ==> next == total + amount
  {
    if total > maximum - amount { return total, false; }
    return total + amount, true;
  }

  lemma QuotientBound(amount: nat, count: nat, room: nat)
    requires count > 0
    ensures amount > room / count <==> amount * count > room
  {
    var q := room / count;
    assert room == q * count + room % count;
    if amount > q {
      assert amount * count >= (q + 1) * count;
    } else {
      assert amount * count <= q * count;
    }
  }

  /** addProjectedProduct: the product is only formed once it is known to fit. */
  method AddProjectedProduct(total: nat, amount: nat, count: nat, maximum: nat) returns (next: nat, ok: bool)
    requires total <= maximum
    ensures ok <==> total + Times(amount, count) <= maximum
    ensures ok ==> next == total + Times(amount, count)
  {
    if count > 0 {
      QuotientBound(amount, count, maximum - total);
      if amount > (maximum - total) / count { return total, false; }
    } else {
      assert amount * count == 0;
    }
    assert amount * count <= maximum - total;
    next, ok := AddProjected(total, amount * count, maximum);
  }

  /** Within the request limit no single weight comes near the 64-bit range. */
  lemma WeightsFitInt64(b: bytes, sort: Sort, depth: nat)
    requires |b| <= 16 * 1024 * 1024
    ensures Weight(b, sort, depth) < 0x8000_0000_0000_0000
  {
  }

  datatype Failure = TooLarge | Malformed

  // ---------------------------------------------------------------- the loops

  /** resourceMaterializationWeight, scopeMaterializationWeight and recordMaterializationWeight. */
  method WeightOf(b: bytes, sort: Sort, depth: nat) returns (weight: nat, ok: bool)
    ensures ok <==> Countable(b, sort, depth)
    ensures ok ==> weight == Weight(b, sort, depth)
  {
    hide CountRecord, CountEntries;
    var budget := new NodeBudget(MAX_NODES);
    var error;
    match sort {
      case RecordSort => error := budget.CountLogRecord(b, depth);
      case AttributesSort(field) => error := budget.CountAllEntries(b, field, 1, depth);
    }
    if error.Some? { return 0, false; }
    return Weighted(b, budget.used + 1), true;
  }

  lemma SumFits(ms: seq<bytes>, sort: Sort, depth: nat)
    requires ms != []
    ensures AllCountable(ms, sort, depth) <==> Countable(ms[0], sort, depth) && AllCountable(ms[1..], sort, depth)
    ensures SumWeights(ms, sort, depth) == Weight(ms[0], sort, depth) + SumWeights(ms[1..], sort, depth)
  {
    hide Countable, Weight;
    assert forall i :: 1 <= i < |ms| ==> ms[i] == ms[1..][i - 1];
  }

  lemma PartFront(b: bytes, number: nat)
    requires b != [] && ReadField(b).Some?
    ensures var f := ReadField(b).value;
            && (Fields(b).Some? <==> Fields(b[|f.raw|..]).Some?)
            && (Fields(b).Some? ==>
                  Part1(b, number) == (if IsMessage(f, number) then [f.value] else []) + Part1(b[|f.raw|..], number))
  {
    if Fields(b).Some? {
      var f := ReadField(b).value;
      var rest := Fields(b[|f.raw|..]).value;
      hide ReadField;
      MessagesAppend([f], rest, number);
      assert [f][..0] == [];
    }
  }

  /** One level of forEachMessage with addProjected: the weights of one number's messages on top of a total. */
  method AddWeights(b: bytes, number: nat, sort: Sort, depth: nat, maximum: nat, start: nat)
    returns (total: nat, count: nat, failure: Option<Failure>)
    requires start <= maximum
    ensures failure.None? ==> Fields(b).Some? && AllCountable(Part1(b, number), sort, depth)
    ensures failure.None? ==>
              total == start + SumWeights(Part1(b, number), sort, depth) <= maximum && count == |Part1(b, number)|
    ensures Fields(b).Some? && AllCountable(Part1(b, number), sort, depth) && failure.Some? ==>
              failure == Some(TooLarge) && start + SumWeights(Part1(b, number), sort, depth) > maximum
  {
    hide ReadField, Fields, Part1, SumWeights, AllCountable, Countable, Weight;
    total, count, failure := start, 0, None;
    var rest := b;
    while rest != []
      invariant |rest| <= |b| && total <= maximum && failure.None?
      invariant Fields(b).Some? <==> Fields(rest).Some?
      invariant Fields(b).Some? ==>
                  (AllCountable(Part1(b, number), sort, depth) <==> AllCountable(Part1(rest, number), sort, depth))
      invariant Fields(b).Some? ==>
                  start + SumWeights(Part1(b, number), sort, depth) == total + SumWeights(Part1(rest, number), sort, depth)
      invariant Fields(b).Some? ==> |Part1(b, number)| == count + |Part1(rest, number)|
      decreases |rest|
    {
      var f := ReadField(rest);
      if f.None? {
        NoFields(rest);
        return total, count, Some(Failure.Malformed);
      }
      PartFront(rest, number);
      var tail := rest[|f.value.raw|..];
      if f.value.number == number && f.value.wire == BYTES {
        SumFits([f.value.value] + Part1(tail, number), sort, depth);
        assert ([f.value.value] + Part1(tail, number))[1..] == Part1(tail, number);
        var weight, ok := WeightOf(f.value.value, sort, depth);
        if !ok { return total, count, Some(Failure.Malformed); }
        var next, fits := AddProjected(total, weight, maximum);
        if !fits { return total, count, Some(TooLarge); }
        total, count := next, count + 1;
      } else {
        assert [] + Part1(tail, number) == Part1(tail, number);
      }
      rest := tail;
    }
    NothingLeft(number, sort, depth);
  }

  lemma NoFields(b: bytes)
    requires b != [] && ReadField(b).None?
    ensures Fields(b).None?
  {
  }

  lemma NothingLeft(number: nat, sort: Sort, depth: nat)
    ensures Fields([]).Some? && Part1([], number) == [] && SumWeights([], sort, depth) == 0
    ensures AllCountable([], sort, depth)
  {
  }

  /** The scope level: the records, then the scope's share once per record. */
  method ProjectScopeLogs(b: bytes, depth: nat, maximum: nat, start: nat)
    returns (total: nat, records: nat, failure: Option<Failure>)
    requires start <= maximum
    ensures failure.None? ==> CountableScopeLogs(b, depth) && ScopeShare(b, depth) <= maximum
    ensures failure.None? ==> total == start + ScopeSum(b, depth) <= maximum && records == |Part1(b, LOG_RECORD)|
    ensures CountableScopeLogs(b, depth) && failure.Some? ==>
              failure == Some(TooLarge) && (ScopeShare(b, depth) > maximum || start + ScopeSum(b, depth) > maximum)
  {
    hide Fields, Part1, SumWeights, AllCountable, Times;
    total, records := start, 0;
    var share, scopes;
    share, scopes, failure := AddWeights(b, SCOPE, SCOPE_SORT, depth, maximum, 0);
    if failure.Some? { return; }
    total, records, failure := AddWeights(b, LOG_RECORD, RecordSort, depth, maximum, start);
    if failure.Some? { return; }
    var next, fits := AddProjectedProduct(total, share, records, maximum);
    if !fits { return total, records, Some(TooLarge); }
    return next, records, None;
  }

  /** The resource level. */
  method ProjectResourceLogs(b: bytes, depth: nat, maximum: nat, start: nat)
    returns (total: nat, failure: Option<Failure>)
    requires start <= maximum
    ensures failure.None? ==> CountableResourceLogs(b, depth) && ResourceSharesFit(b, depth, maximum)
    ensures failure.None? ==> total == start + ResourceSum(b, depth) <= maximum
    ensures CountableResourceLogs(b, depth) && failure.Some? ==>
              failure == Some(TooLarge) &&
              (!ResourceSharesFit(b, depth, maximum) || start + ResourceSum(b, depth) > maximum)
  {
    hide ReadField, Fields, Part1, SumWeights, AllCountable, ScopeSum, ScopeSums, RecordCount, CountableScopeLogs,
         ScopeShare, Times;
    total := start;
    var share, resources;
    share, resources, failure := AddWeights(b, RESOURCE, RESOURCE_SORT, depth, maximum, 0);
    if failure.Some? { return; }
    var records;
    total, records, failure := ProjectScopes(b, depth, maximum, start);
    if failure.Some? { return; }
    var next, fits := AddProjectedProduct(total, share, records, maximum);
    if !fits { return total, Some(TooLarge); }
    return next, None;
  }

  predicate AllScopes(logs: seq<bytes>, depth: nat) {
    forall m :: m in logs ==> CountableScopeLogs(m, depth)
  }

  predicate AllScopeShares(logs: seq<bytes>, depth: nat, maximum: nat) {
    forall s :: s in logs ==> ScopeShare(s, depth) <= maximum
  }

  lemma ScopesFront(m: bytes, logs: seq<bytes>, depth: nat, maximum: nat)
    ensures AllScopes([m] + logs, depth) <==> CountableScopeLogs(m, depth) && AllScopes(logs, depth)
    ensures AllScopeShares([m] + logs, depth, maximum) <==>
              ScopeShare(m, depth) <= maximum && AllScopeShares(logs, depth, maximum)
    ensures ScopeSums([m] + logs, depth) == ScopeSum(m, depth) + ScopeSums(logs, depth)
    ensures RecordCount([m] + logs) == |Part1(m, LOG_RECORD)| + RecordCount(logs)
  {
    hide CountableScopeLogs, ScopeShare, ScopeSum, Part1;
    assert m in [m] + logs && ([m] + logs)[1..] == logs;
    assert forall x :: x in [m] + logs <==> x == m || x in logs;
  }

  method ProjectScopes(b: bytes, depth: nat, maximum: nat, start: nat)
    returns (total: nat, records: nat, failure: Option<Failure>)
    requires start <= maximum
    ensures var logs := Part1(b, SCOPE_LOGS);
            && (failure.None? ==> Fields(b).Some? && AllScopes(logs, depth) && AllScopeShares(logs, depth, maximum) &&
                                  total == start + ScopeSums(logs, depth) <= maximum && records == RecordCount(logs))
            && (Fields(b).Some? && AllScopes(logs, depth) && failure.Some? ==>
                 failure == Some(TooLarge) &&
                 (!AllScopeShares(logs, depth, maximum) || start + ScopeSums(logs, depth) > maximum))
  {
    hide ReadField, Fields, Part1, ScopeSum, ScopeSums, RecordCount, CountableScopeLogs, ScopeShare, AllScopes,
         AllScopeShares;
    total, records, failure := start, 0, None;
    var rest := b;
    while rest != []
      invariant |rest| <= |b| && total <= maximum && failure.None?
      invariant Fields(b).Some? <==> Fields(rest).Some?
      invariant Fields(b).Some? ==>
                  (AllScopes(Part1(b, SCOPE_LOGS), depth) <==> AllScopes(Part1(rest, SCOPE_LOGS), depth))
      invariant Fields(b).Some? ==>
                  (AllScopeShares(Part1(b, SCOPE_LOGS), depth, maximum) <==>
                     AllScopeShares(Part1(rest, SCOPE_LOGS), depth, maximum))
      invariant Fields(b).Some? ==>
                  start + ScopeSums(Part1(b, SCOPE_LOGS), depth) == total + ScopeSums(Part1(rest, SCOPE_LOGS), depth)
      invariant Fields(b).Some? ==> RecordCount(Part1(b, SCOPE_LOGS)) == records + RecordCount(Part1(rest, SCOPE_LOGS))
      decreases |rest|
    {
      var f := ReadField(rest);
      if f.None? {
        NoFields(rest);
        return total, records, Some(Failure.Malformed);
      }
      PartFront(rest, SCOPE_LOGS);
      var tail := rest[|f.value.raw|..];
      if f.value.number == SCOPE_LOGS && f.value.wire == BYTES {
        ScopesFront(f.value.value, Part1(tail, SCOPE_LOGS), depth, maximum);
        var next, n, failed := ProjectScopeLogs(f.value.value, depth, maximum, total);
        if failed.Some? { return total, records, failed; }
        total, records := next, records + n;
      } else {
        assert [] + Part1(tail, SCOPE_LOGS) == Part1(tail, SCOPE_LOGS);
      }
      rest := tail;
    }
    NoScopes(depth, maximum);
  }

  lemma NoScopes(depth: nat, maximum: nat)
    ensures Fields([]).Some? && Part1([], SCOPE_LOGS) == [] && ScopeSums([], depth) == 0 && RecordCount([]) == 0
    ensures AllScopes([], depth) && AllScopeShares([], depth, maximum)
  {
  }

  predicate AllResources(logs: seq<bytes>, depth: nat) {
    forall m :: m in logs ==> CountableResourceLogs(m, depth)
  }

  predicate AllResourceShares(logs: seq<bytes>, depth: nat, maximum: nat) {
    forall m :: m in logs ==> ResourceSharesFit(m, depth, maximum)
  }

  lemma ResourcesFront(m: bytes, logs: seq<bytes>, depth: nat, maximum: nat)
    ensures AllResources([m] + logs, depth) <==> CountableResourceLogs(m, depth) && AllResources(logs, depth)
    ensures AllResourceShares([m] + logs, depth, maximum) <==>
              ResourceSharesFit(m, depth, maximum) && AllResourceShares(logs, depth, maximum)
    ensures ResourceSums([m] + logs, depth) == ResourceSum(m, depth) + ResourceSums(logs, depth)
  {
    hide CountableResourceLogs, ResourceSharesFit, ResourceSum;
    assert m in [m] + logs && ([m] + logs)[1..] == logs;
    assert forall x :: x in [m] + logs <==> x == m || x in logs;
  }

  /**
   * projectMaterialization: the exact per-record sum when it fits; otherwise the size error, and that only if the sum
   * or one shared weight exceeds the maximum. Whatever cannot be read or counted within the node limit is an error too.
   */
  method ProjectMaterialization(data: bytes, depth: nat, maximum: nat) returns (r: Result<nat, Failure>)
    ensures CountableRequest(data, depth) ==>
              r == if TrueSum(Views(data), depth) <= maximum && SharesFit(data, depth, maximum) then Ok(TrueSum(Views(data), depth)) else Err(TooLarge)
    ensures !CountableRequest(data, depth) ==> r.Err?
    ensures r.Ok? ==> r.result <= maximum
  {
    hide ReadField, Fields, Part1, ResourceSum, ResourceSums, CountableResourceLogs, ResourceSharesFit, AllResources,
         AllResourceShares, TrueSum,
         AllResourceViews;
    var total: nat := 0;
    var rest := data;
    RequestMeaning(data, depth, maximum);
    while rest != []
      invariant |rest| <= |data| && total <= maximum
      invariant Fields(data).Some? <==> Fields(rest).Some?
      invariant Fields(data).Some? ==> (AllResources(Part1(data, 1), depth) <==> AllResources(Part1(rest, 1), depth))
      invariant Fields(data).Some? ==> (AllResourceShares(Part1(data, 1), depth, maximum) <==>
                                          AllResourceShares(Part1(rest, 1), depth, maximum))
      invariant Fields(data).Some? ==>
                  ResourceSums(Part1(data, 1), depth) == total + ResourceSums(Part1(rest, 1), depth)
      decreases |rest|
    {
      var f := ReadField(rest);
      if f.None? {
        NoFields(rest);
        return Err(Failure.Malformed);
      }
      PartFront(rest, 1);
      var tail := rest[|f.value.raw|..];
      if f.value.number == 1 && f.value.wire == BYTES {
        ResourcesFront(f.value.value, Part1(tail, 1), depth, maximum);
        var next, failed := ProjectResourceLogs(f.value.value, depth, maximum, total);
        if failed.Some? { return Err(failed.value); }
        total := next;
      } else {
        assert [] + Part1(tail, 1) == Part1(tail, 1);
      }
      rest := tail;
    }
    NoResources(depth, maximum);
    return Ok(total);
  }

  lemma NoResources(depth: nat, maximum: nat)
    ensures Fields([]).Some? && Part1([], 1) == [] && ResourceSums([], depth) == 0
    ensures AllResources([], depth) && AllResourceShares([], depth, maximum)
  {
  }

  lemma RequestMeaning(data: bytes, depth: nat, maximum: nat)
    ensures CountableRequest(data, depth) <==> Fields(data).Some? && AllResources(Part1(data, 1), depth)
    ensures SharesFit(data, depth, maximum) <==> AllResourceShares(Part1(data, 1), depth, maximum)
    ensures TrueSum(Views(data), depth) == ResourceSums(Part1(data, 1), depth)
  {
    hide CountableResourceLogs, ResourceSharesFit;
    ResourceSumsAreTrue(Part1(data, 1), depth);
  }
}
