/** The running encoder of a derived identity, writing field by field into one digest input. */
module IdentityEncoder {
  import opened Basics
  import opened Encoding
  import opened Identity

  ghost predicate Ordered(s: seq<bytes>) {
    forall i, j :: 0 <= i < j < |s| ==> !Less(s[j], s[i])
  }

  lemma NotAfter(a: bytes, b: bytes, c: bytes)
    requires !Less(b, a) && !Less(c, b)
    ensures !Less(c, a)
  {
    LessTotal(a, b);
    if Less(c, a) && Less(a, b) { LessTransitive(c, a, b); }
  }

  /** sort.Strings, as an insertion sort. */
  method SortedCopy(values: seq<bytes>) returns (ordered: seq<bytes>)
    ensures Ordered(ordered) && forall x :: x in ordered <==> x in values
  {
    hide Less;
    ordered := [];
    for n := 0 to |values|
      invariant Ordered(ordered) && forall x :: x in ordered <==> x in values[..n]
    {
      assert values[..n + 1] == values[..n] + [values[n]];
      ordered := Insert(ordered, values[n]);
    }
    assert values[..|values|] == values;
  }

  method Insert(s: seq<bytes>, v: bytes) returns (t: seq<bytes>)
    requires Ordered(s)
    ensures Ordered(t) && forall x :: x in t <==> x == v || x in s
  {
    hide Less;
    var i := |s|;
    while i > 0 && Less(v, s[i - 1])
      invariant 0 <= i <= |s| && forall j :: i <= j < |s| ==> Less(v, s[j])
    {
      i := i - 1;
    }
    t := s[..i] + [v] + s[i..];
    forall j | i <= j < |s| ensures !Less(s[j], v) {
      LessIrreflexive(v);
      if Less(s[j], v) { LessTransitive(v, s[j], v); }
    }
    forall j | 0 <= j < i ensures !Less(v, s[j]) {
      if j < i - 1 { NotAfter(s[j], s[i - 1], v); }
    }
    assert s == s[..i] + s[i..];
  }

  /** Dropping equal neighbours of an ordered list leaves the set in byte order. */
  method Deduplicate(ordered: seq<bytes>) returns (unique: seq<bytes>)
    requires Ordered(ordered)
    ensures Ascending(unique) && forall x :: x in unique <==> x in ordered
  {
    hide Less;
    unique := [];
    for n := 0 to |ordered|
      invariant Ascending(unique) && forall x :: x in unique <==> x in ordered[..n]
      invariant if n == 0 then unique == [] else unique != [] && unique[|unique| - 1] == ordered[n - 1]
    {
      assert ordered[..n + 1] == ordered[..n] + [ordered[n]];
      if |unique| == 0 || unique[|unique| - 1] != ordered[n] {
        forall i | 0 <= i < |unique| ensures Less(unique[i], ordered[n]) {
          var last := unique[|unique| - 1];
          LessTotal(last, ordered[n]);
          assert last == ordered[n - 1] && !Less(ordered[n], ordered[n - 1]);
          if i < |unique| - 1 { LessTransitive(unique[i], last, ordered[n]); }
        }
        unique := unique + [ordered[n]];
      }
    }
    assert ordered[..|ordered|] == ordered;
  }

  lemma ListedIs(s: seq<bytes>, all: set<bytes>)
    requires Ascending(s) && forall x :: x in s <==> x in all
    ensures s == Listed(all) && |s| == |all|
  {
    ListedIsSorted(all);
    AscendingIsUnique(s, Listed(all));
  }

  class CanonicalEncoder {
    var written: bytes

    constructor ()
      ensures written == []
    {
      written := [];
    }

    method RawString(s: bytes)
      modifies this
      ensures written == old(written) + s
    {
      written := written + s;
    }

    method WriteLength(n: nat)
      modifies this
      ensures written == old(written) + Length(n)
    {
      written := written + BigEndian(n, 8);
    }

    method WriteString(s: bytes)
      modifies this
      ensures written == old(written) + Str(s)
    {
      WriteLength(|s|);
      RawString(s);
    }

    method WriteSigned(n: int)
      modifies this
      ensures written == old(written) + Signed(n)
    {
      written := written + BigEndian(n % U64, 8);
    }

    /** stringsAsSet: order and repetition of the input do not matter. */
    method StringsAsSet(values: seq<bytes>)
      modifies this
      ensures written == old(written) + EncodeSet(Distinct(values))
    {
      hide Less, Ascending, Ordered, Length, Str, Listed, Strings;
      var ordered := SortedCopy(values);
      var unique := Deduplicate(ordered);
      ListedIs(unique, Distinct(values));
      WriteLength(|unique|);
      WriteAll(unique);
    }

    method WriteAll(s: seq<bytes>)
      modifies this
      ensures written == old(written) + Strings(s)
    {
      hide Str;
      ghost var head := written;
      for i := 0 to |s|
        invariant written + Strings(s[i..]) == head + Strings(s)
      {
        WriteString(s[i]);
        assert s[i..][1..] == s[i + 1..];
      }
      assert s[|s|..] == [];
    }

    /** safeMap: iteration order does not matter. */
    method SafeMap(v: SafeValue)
      requires v.Structure?
      modifies this
      ensures written == old(written) + EncodeMap(v.entries)
      decreases v, 1
    {
      hide Less, Ascending, Length, Str, Listed, Encode, Entries;
      var keys := SortStrings(v.entries.Keys);
      ListedIs(keys, v.entries.Keys);
      WriteLength(|keys|);
      WriteEntries(v, keys);
      assert Structure(v.entries) == v;
    }

    method WriteEntries(v: SafeValue, keys: seq<bytes>)
      requires v.Structure? && forall k :: k in keys ==> k in v.entries
      modifies this
      ensures written == old(written) + Entries(v, keys)
      decreases v, 0
    {
      hide Str, Encode;
      ghost var head := written;
      for i := 0 to |keys|
        invariant forall k :: k in keys[i..] ==> k in v.entries
        invariant written + Entries(v, keys[i..]) == head + Entries(v, keys)
      {
        assert keys[i..][0] == keys[i] && keys[i..][1..] == keys[i + 1..];
        EntrySmaller(v, keys[i]);
        WriteString(keys[i]);
        WriteValue(v.entries[keys[i]]);
      }
      assert keys[|keys|..] == [];
    }

    /** safeValue. */
    method WriteValue(v: SafeValue)
      modifies this
      ensures written == old(written) + Encode(v)
      decreases v, 2
    {
      hide Length, Str, Listed, Entries, Signed;
      WriteString(Kind(v));
      match v {
        case Absent =>
        case Text(s) => WriteString(s);
        case Int(n) => WriteSigned(n);
        case Double(b) => written := written + BigEndian(b, 8);
        case Bool(b) => if b { RawString([1]); } else { RawString([0]); }
        case Structure(_) => SafeMap(v);
        case List(s) => WriteItems(v);
        case Withheld(s) => WriteString(s);
      }
    }

    method WriteItems(v: SafeValue)
      requires v.List?
      modifies this
      ensures written == old(written) + (Length(|v.items|) + Items(v.items))
      decreases v, 0
    {
      hide Length, Encode;
      WriteLength(|v.items|);
      ghost var head := written;
      for i := 0 to |v.items|
        invariant written + Items(v.items[i..]) == head + Items(v.items)
      {
        assert v.items[i..][1..] == v.items[i + 1..];
        WriteValue(v.items[i]);
      }
      assert v.items[|v.items|..] == [];
      assert written + [] == written && head + Items(v.items) == old(written) + (Length(|v.items|) + Items(v.items));
    }
  }

  /** The first k fields, written one after the other. */
  ghost function Prefix(f: seq<Field>, k: nat): bytes
    requires k <= |f|
  {
    if k == 0 then VERSION else Prefix(f, k - 1) + EncodeField(f[k - 1])
  }

  lemma {:induction false} PrefixEnds(f: seq<Field>, k: nat)
    requires k <= |f|
    ensures Prefix(f, k) + EncodeFields(f[k..]) == VERSION + EncodeFields(f)
  {
    hide EncodeField;
    if k > 0 {
      PrefixEnds(f, k - 1);
      assert f[k - 1..][1..] == f[k..];
    } else {
      assert f[0..] == f;
    }
  }

  /** What one more field adds to a prefix. */
  lemma PrefixStep(r: Evidence, k: nat)
    requires k < |Fields(r)|
    ensures Prefix(Fields(r), k + 1) == Prefix(Fields(r), k) + EncodeField(Fields(r)[k])
  {
  }

  lemma SourceFields(r: Evidence)
    ensures var f := Fields(r);
            && |f| == 21 && f[0] == FText(r.sourceType) && f[1] == FText(r.sourceAccount) && f[2] == FText(r.region)
            && f[3] == FSet(Distinct(r.allowedEnvironments)) && f[4] == FSet(Distinct(r.allowedServices))
            && f[5] == FText(r.sourceInstance) && f[6] == FText(r.credential)
  {
    hide Distinct;
  }

  lemma ServiceFields(r: Evidence)
    ensures var f := Fields(r);
            && |f| == 21 && f[7] == FText(r.serviceName) && f[8] == FText(r.serviceNamespace)
            && f[9] == FText(r.serviceInstance)
            && f[10] == FText(r.environment) && f[11] == FTime(r.eventTime) && f[12] == FTime(r.observedTime)
            && f[13] == FInt(r.severity)
  {
    hide Distinct;
  }

  lemma ContentFields(r: Evidence)
    ensures var f := Fields(r);
            && |f| == 21 && f[14] == FText(r.traceID) && f[15] == FText(r.spanID) && f[16] == FValue(r.body)
            && f[17] == FText(r.eventName) && f[18] == FMap(r.attributes) && f[19] == FMap(r.resource)
            && f[20] == FMap(r.scope)
  {
    hide Distinct;
  }

  method WriteSource(e: CanonicalEncoder, r: Evidence)
    requires e.written == Prefix(Fields(r), 0)
    modifies e
    ensures |Fields(r)| == 21 && e.written == Prefix(Fields(r), 7)
  {
    hide Length, Str, EncodeSet, Distinct, Fields, Prefix;
    SourceFields(r);
    e.WriteString(r.sourceType);
    PrefixStep(r, 0);
    e.WriteString(r.sourceAccount);
    PrefixStep(r, 1);
    e.WriteString(r.region);
    PrefixStep(r, 2);
    e.StringsAsSet(r.allowedEnvironments);
    PrefixStep(r, 3);
    e.StringsAsSet(r.allowedServices);
    PrefixStep(r, 4);
    e.WriteString(r.sourceInstance);
    PrefixStep(r, 5);
    e.WriteString(r.credential);
    PrefixStep(r, 6);
  }

  method WriteService(e: CanonicalEncoder, r: Evidence)
    requires |Fields(r)| == 21 && e.written == Prefix(Fields(r), 7)
    modifies e
    ensures e.written == Prefix(Fields(r), 14)
  {
    hide Length, Str, Signed, Distinct, Fields, Prefix;
    ServiceFields(r);
    e.WriteString(r.serviceName);
    PrefixStep(r, 7);
    e.WriteString(r.serviceNamespace);
    PrefixStep(r, 8);
    e.WriteString(r.serviceInstance);
    PrefixStep(r, 9);
    e.WriteString(r.environment);
    PrefixStep(r, 10);
    e.WriteSigned(r.eventTime);
    PrefixStep(r, 11);
    e.WriteSigned(r.observedTime);
    PrefixStep(r, 12);
    e.WriteSigned(r.severity);
    PrefixStep(r, 13);
  }

  method WriteContent(e: CanonicalEncoder, r: Evidence)
    requires |Fields(r)| == 21 && e.written == Prefix(Fields(r), 14)
    modifies e
    ensures e.written == Prefix(Fields(r), 21)
  {
    hide Length, Str, Encode, EncodeMap, Distinct, Fields, Prefix;
    ContentFields(r);
    e.WriteString(r.traceID);
    PrefixStep(r, 14);
    e.WriteString(r.spanID);
    PrefixStep(r, 15);
    e.WriteValue(r.body);
    PrefixStep(r, 16);
    e.WriteString(r.eventName);
    PrefixStep(r, 17);
    e.SafeMap(Structure(r.attributes));
    PrefixStep(r, 18);
    e.SafeMap(Structure(r.resource));
    PrefixStep(r, 19);
    e.SafeMap(Structure(r.scope));
    PrefixStep(r, 20);
  }

  /** DerivedV1 up to its hash. */
  method Derive(r: Evidence) returns (input: bytes)
    ensures input == Canonical(r)
  {
    hide Fields, Prefix;
    var e := new CanonicalEncoder();
    e.RawString(VERSION);
    VersionFirst(r);
    WriteSource(e, r);
    WriteService(e, r);
    WriteContent(e, r);
    PrefixEnds(Fields(r), 21);
    assert Fields(r)[21..] == [];
    input := e.written;
  }

  lemma VersionFirst(r: Evidence)
    ensures [] + VERSION == Prefix(Fields(r), 0)
    ensures |Fields(r)| == 21 && Prefix(Fields(r), 21) + EncodeFields([]) == Prefix(Fields(r), 21)
  {
  }
}
