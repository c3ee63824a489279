/** The sliding investigation threshold: what the retained qualifying endpoint means. */
module IncidentThreshold {
  import opened Basics
  import opened IncidentModel
  import opened IncidentFold

  ghost predicate TimesAscend(times: seq<int>) {
    forall i, j :: 0 <= i < j < |times| ==> times[i] <= times[j]
  }

  ghost predicate AtMost(times: seq<int>, t: int) {
    forall i :: 0 <= i < |times| ==> times[i] <= t
  }

  lemma WindowCountPush(times: seq<int>, t: int, w: int)
    ensures WindowCount(times + [t], w) == WindowCount(times, w) + (if InHalfOpenWindow(t, w, WINDOW) then 1 else 0)
  {
    assert (times + [t])[..|times|] == times;
  }

  /** Moving an endpoint beyond the last event can only lose events. */
  lemma {:induction false} WindowCountAfterLast(times: seq<int>, t: int, w: int)
    requires AtMost(times, t) && t <= w
    ensures WindowCount(times, w) <= WindowCount(times, t)
  {
    if times != [] { WindowCountAfterLast(times[..|times| - 1], t, w); }
  }

  /** satisfiedAt is the least endpoint of a full window, and is set when any window anywhere is full. */
  ghost predicate Exact(eligible: seq<int>, satisfiedAt: Option<int>) {
    match satisfiedAt
    case None => forall w: int :: WindowCount(eligible, w) < THRESHOLD
    case Some(t) => t in eligible && WindowCount(eligible, t) >= THRESHOLD &&
                    forall w: int :: w < t ==> WindowCount(eligible, w) < THRESHOLD
  }

  lemma ExactPush(eligible: seq<int>, satisfiedAt: Option<int>, t: int)
    requires Exact(eligible, satisfiedAt) && AtMost(eligible, t)
    ensures Exact(eligible + [t],
                  if satisfiedAt.None? && WindowCount(eligible + [t], t) >= THRESHOLD then Some(t) else satisfiedAt)
  {
    hide WindowCount;
    var e := eligible + [t];
    forall w: int
      ensures WindowCount(e, w) == WindowCount(eligible, w) + (if InHalfOpenWindow(t, w, WINDOW) then 1 else 0)
    {
      WindowCountPush(eligible, t, w);
    }
    if satisfiedAt.None? && WindowCount(e, t) < THRESHOLD {
      forall w: int ensures WindowCount(e, w) < THRESHOLD {
        if w >= t { WindowCountAfterLast(e, t, w); }
      }
    }
  }

  /** Event times of the eligible records the fold put into episode i, in order. */
  function EligibleTimes(s: seq<Record>, i: int): seq<int> {
    if s == [] then []
    else EligibleTimes(s[..|s| - 1], i) +
         (if Ord(s, |s| - 1) == i && s[|s| - 1].eligible then [s[|s| - 1].eventTime] else [])
  }

  lemma {:induction false} EligibleTimesBounded(s: seq<Record>, i: int, t: int)
    requires forall k :: 0 <= k < |s| ==> s[k].eventTime <= t
    ensures AtMost(EligibleTimes(s, i), t)
  {
    if s != [] { EligibleTimesBounded(s[..|s| - 1], i, t); }
  }

  lemma {:induction false} EligibleTimesBeyond(s: seq<Record>, i: int)
    requires i >= |Fold(s)|
    ensures EligibleTimes(s, i) == []
  {
    if s != [] {
      OrdMonotone(s, |s| - 1, |s| - 1);
      FoldAt(s, |s| - 1);
      assert s[..|s|] == s;
      hide Fold, Ord;
      EligibleTimesBeyond(s[..|s| - 1], i);
    }
  }

  /**
   * After any fold, an episode's satisfiedAt is the least eligible endpoint whose half-open window
   * holds a threshold of the episode's eligible records, and it is unset only when no window does.
   */
  lemma {:induction false} ThresholdExact(s: seq<Record>, i: nat)
    requires Sorted(s) && i < |Fold(s)|
    ensures Fold(s)[i].eligible == EligibleTimes(s, i)
    ensures Exact(EligibleTimes(s, i), Fold(s)[i].satisfiedAt)
  {
    var n := |s| - 1;
    var p := s[..n];
    assert s[..n + 1] == s;
    FoldAt(s, n);
    EligibleTimesBounded(p, i, s[n].eventTime);
    hide Fold, Exact, Ord, WindowCount;
    if i < |Fold(p)| { ThresholdExact(p, i); } else { EligibleTimesBeyond(p, i); }
    if i == Ord(s, n) {
      if i < |Fold(p)| {
        if s[n].eligible { ExactPush(EligibleTimes(p, i), Fold(p)[i].satisfiedAt, s[n].eventTime); }
      } else {
        ExactBegin(s[n]);
      }
    }
  }

  lemma ExactBegin(r: Record)
    ensures Exact(Begin(r).eligible, Begin(r).satisfiedAt)
  {
    forall w: int ensures WindowCount(Begin(r).eligible, w) <= 1 { assert WindowCount([], w) == 0; }
  }

  // ---------------------------------------------------------------- binary-search window counts

  /** sort.Search for the first time after `bound`. */
  method SearchAfter(times: seq<int>, bound: int) returns (index: nat)
    requires TimesAscend(times)
    ensures index <= |times|
    ensures forall i :: 0 <= i < index ==> times[i] <= bound
    ensures forall i :: index <= i < |times| ==> times[i] > bound
  {
    var lo, hi := 0, |times|;
    while lo < hi
      invariant 0 <= lo <= hi <= |times|
      invariant forall i :: 0 <= i < lo ==> times[i] <= bound
      invariant forall i :: hi <= i < |times| ==> times[i] > bound
    {
      var mid := (lo + hi) / 2;
      if times[mid] > bound { hi := mid; } else { lo := mid + 1; }
    }
    index := lo;
  }

  lemma {:induction false} WindowCountOfRange(times: seq<int>, w: int, first: nat, past: nat)
    requires first <= past <= |times|
    requires forall i :: 0 <= i < |times| ==> (InHalfOpenWindow(times[i], w, WINDOW) <==> first <= i < past)
    ensures WindowCount(times, w) == past - first
  {
    if times != [] {
      var n := |times| - 1;
      WindowCountOfRange(times[..n], w, if first > n then n else first, if past > n then n else past);
    }
  }

  /** countInSortedWindow. */
  method CountInSortedWindow(times: seq<int>, watermark: Option<int>) returns (count: nat)
    requires TimesAscend(times)
    ensures watermark.None? ==> count == 0
    ensures watermark.Some? ==> count == WindowCount(times, watermark.value)
  {
    if watermark.None? { return 0; }
    var first := SearchAfter(times, watermark.value - WINDOW);
    var past := SearchAfter(times, watermark.value);
    assert past == |times| || times[past] > watermark.value;
    WindowCountOfRange(times, watermark.value, first, past);
    return past - first;
  }
}
