/** Shared vocabulary: optional values, Go byte strings and their order. */
module Basics {

  datatype Option<+T> = None | Some(value: T)

  datatype Result<+T, +E> = Ok(result: T) | Err(error: E)

  type byte = x: int | 0 <= x < 256

  /** A Go string or byte slice. */
  type bytes = seq<byte>

  /** Go's `<` on strings: the first differing byte decides, a proper prefix is smaller. */
  predicate Less(a: bytes, b: bytes) {
    if b == [] then false
    else if a == [] then true
    else if a[0] != b[0] then a[0] < b[0]
    else Less(a[1..], b[1..])
  }

  lemma {:induction false} LessIrreflexive(a: bytes)
    ensures !Less(a, a)
  {
    if a != [] { LessIrreflexive(a[1..]); }
  }

  lemma {:induction false} LessTransitive(a: bytes, b: bytes, c: bytes)
    requires Less(a, b) && Less(b, c)
    ensures Less(a, c)
  {
    if a != [] && a[0] == b[0] && b[0] == c[0] { LessTransitive(a[1..], b[1..], c[1..]); }
  }

  lemma {:induction false} LessTotal(a: bytes, b: bytes)
    ensures Less(a, b) || a == b || Less(b, a)
  {
    if a != [] && b != [] && a[0] == b[0] {
      LessTotal(a[1..], b[1..]);
      if a[1..] == b[1..] { assert a == [a[0]] + a[1..] == b; }
    }
  }

  /** A common prefix does not influence the order. */
  lemma {:induction false} LessCommonPrefix(p: bytes, a: bytes, b: bytes)
    ensures Less(p + a, p + b) == Less(a, b)
  {
    if p == [] {
      assert p + a == a && p + b == b;
    } else {
      assert (p + a)[1..] == p[1..] + a && (p + b)[1..] == p[1..] + b;
      LessCommonPrefix(p[1..], a, b);
    }
  }

  ghost predicate Ascending(ids: seq<bytes>) {
    forall i, j :: 0 <= i < j < |ids| ==> Less(ids[i], ids[j])
  }

  /** sort.Strings over distinct strings. */
  method SortStrings(ids: set<bytes>) returns (s: seq<bytes>)
    ensures Ascending(s) && |s| == |ids| && forall x :: x in s <==> x in ids
  {
    hide Less;
    s := [];
    var rest := ids;
    while rest != {}
      invariant rest <= ids && Ascending(s) && |s| == |ids| - |rest|
      invariant forall x :: x in s <==> x in ids - rest
      invariant forall i, y :: 0 <= i < |s| && y in rest ==> Less(s[i], y)
      decreases rest
    {
      var least :| least in rest;
      var left := rest - {least};
      while left != {}
        invariant least in rest && least !in left && left <= rest
        invariant forall x :: x in rest - left && x != least ==> Less(least, x)
        decreases left
      {
        var x :| x in left;
        LessTotal(least, x);
        if Less(x, least) {
          forall y | y in rest - left && y != least ensures Less(x, y) { LessTransitive(x, least, y); }
          least := x;
        }
        left := left - {x};
      }
      rest := rest - {least};
      s := s + [least];
    }
  }

  /** A set of strings has one ascending listing. */
  lemma {:induction false} AscendingIsUnique(s: seq<bytes>, t: seq<bytes>)
    requires Ascending(s) && Ascending(t) && forall x :: x in s <==> x in t
    ensures s == t
  {
    hide Less;
    if s == [] {
      if t != [] { FirstIsMember(t); }
    } else {
      FirstIsMember(s);
      FirstIsMember(t);
      var i :| 0 <= i < |t| && t[i] == s[0];
      var j :| 0 <= j < |s| && s[j] == t[0];
      FirstIsLeast(s, t, i, j);
      forall x ensures x in s[1..] <==> x in t[1..] {
        WithoutFirst(s, x);
        WithoutFirst(t, x);
      }
      AscendingIsUnique(s[1..], t[1..]);
      assert s == [s[0]] + s[1..] && t == [t[0]] + t[1..];
    }
  }

  lemma FirstIsMember(s: seq<bytes>)
    requires s != []
    ensures s[0] in s
  {
  }

  lemma FirstIsLeast(s: seq<bytes>, t: seq<bytes>, i: nat, j: nat)
    requires Ascending(s) && Ascending(t) && i < |t| && j < |s| && t[i] == s[0] && s[j] == t[0]
    ensures s[0] == t[0]
  {
    hide Less;
    LessIrreflexive(s[0]);
    if i > 0 && j > 0 { LessTransitive(s[0], t[0], s[0]); }
  }

  lemma WithoutFirst(s: seq<bytes>, x: bytes)
    requires Ascending(s) && s != []
    ensures x in s[1..] <==> x in s && x != s[0]
  {
    hide Less;
    LessIrreflexive(s[0]);
    if x in s && x != s[0] {
      var i :| 0 <= i < |s| && s[i] == x;
      assert s[1..][i - 1] == x;
    }
    if x in s[1..] {
      var i :| 0 <= i < |s| - 1 && s[1..][i] == x;
      assert s[i + 1] == x && Less(s[0], s[i + 1]);
    }
  }
}
