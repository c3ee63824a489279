/** The nesting sanitizer: which records survive, under which original index, and that they survive unchanged. */
module WireSanitizer {
  import opened Basics
  import opened Encoding
  import opened Wire
  import opened WireValues

  const RESOURCE := 1
  const SCOPE_LOGS := 2
  const SCOPE := 1
  const LOG_RECORD := 2
  const RESOURCE_ATTRIBUTES := 1
  const SCOPE_ATTRIBUTES := 3

  // ---------------------------------------------------------------- what a request says

  /** A record together with everything it inherits. */
  datatype View = View(record: bytes, resource: seq<bytes>, scope: seq<bytes>)

  function Part1(b: bytes, number: nat): seq<bytes> {
    if Fields(b).Some? then Messages(Fields(b).value, number) else []
  }

  function RecordViews(records: seq<bytes>, resource: seq<bytes>, scope: seq<bytes>): (vs: seq<View>)
    ensures |vs| == |records| && forall i :: 0 <= i < |records| ==> vs[i] == View(records[i], resource, scope)
  {
    seq(|records|, i requires 0 <= i < |records| => View(records[i], resource, scope))
  }

  function ScopeViews(scopeLogs: bytes, resource: seq<bytes>): seq<View> {
    RecordViews(Part1(scopeLogs, LOG_RECORD), resource, Part1(scopeLogs, SCOPE))
  }

  function AllScopeViews(logs: seq<bytes>, resource: seq<bytes>): seq<View> {
    if logs == [] then [] else AllScopeViews(logs[..|logs| - 1], resource) + ScopeViews(logs[|logs| - 1], resource)
  }

  function ResourceViews(resourceLogs: bytes): seq<View> {
    AllScopeViews(Part1(resourceLogs, SCOPE_LOGS), Part1(resourceLogs, RESOURCE))
  }

  function AllResourceViews(logs: seq<bytes>): seq<View> {
    if logs == [] then [] else AllResourceViews(logs[..|logs| - 1]) + ResourceViews(logs[|logs| - 1])
  }

  /** The request's records in flattened order. */
  function Views(request: bytes): seq<View> {
    AllResourceViews(Part1(request, 1))
  }

  /** A request the decoder will accept: every message the sanitizer looks into can be read to the end. */
  predicate ReadableScopeLogs(b: bytes) {
    && Fields(b).Some?
    && (forall m :: m in Part1(b, SCOPE) ==> ParseEntries(m, SCOPE_ATTRIBUTES).Some?)
    && (forall m :: m in Part1(b, LOG_RECORD) ==> ReadableRecord(m))
  }

  predicate ReadableResourceLogs(b: bytes) {
    && Fields(b).Some?
    && (forall m :: m in Part1(b, RESOURCE) ==> ParseEntries(m, RESOURCE_ATTRIBUTES).Some?)
    && (forall m :: m in Part1(b, SCOPE_LOGS) ==> ReadableScopeLogs(m))
  }

  predicate ReadableRequest(b: bytes) {
    Fields(b).Some? && forall m :: m in Part1(b, 1) ==> ReadableResourceLogs(m)
  }

  // ---------------------------------------------------------------- verdicts

  predicate AnyExceeds(ms: seq<bytes>, field: nat, maximum: nat) {
    exists m :: m in ms && EntriesExceed(m, field, 1, maximum) == Some(true)
  }

  predicate Bad(v: View, maximum: nat) {
    || AnyExceeds(v.resource, RESOURCE_ATTRIBUTES, maximum) || AnyExceeds(v.scope, SCOPE_ATTRIBUTES, maximum)
    || RecordExceeds(v.record, maximum) == Some(true)
  }

  /** The views that survive, in order. */
  function Good(vs: seq<View>, maximum: nat): seq<View> {
    if vs == [] then [] else Good(vs[..|vs| - 1], maximum) + if Bad(vs[|vs| - 1], maximum) then [] else [vs[|vs| - 1]]
  }

  /** Positions of good or of bad views, counted from `base`. */
  function Indexes(vs: seq<View>, base: nat, maximum: nat, bad: bool): seq<nat> {
    if vs == [] then []
    else Indexes(vs[..|vs| - 1], base, maximum, bad) + if Bad(vs[|vs| - 1], maximum) == bad then [base + |vs| - 1] else []
  }

  lemma {:induction false} GoodAppend(a: seq<View>, b: seq<View>, maximum: nat)
    ensures Good(a + b, maximum) == Good(a, maximum) + Good(b, maximum)
  {
    hide Bad;
    if b == [] {
      assert a + b == a;
    } else {
      GoodAppend(a, b[..|b| - 1], maximum);
      assert (a + b)[..|a + b| - 1] == a + b[..|b| - 1];
    }
  }

  lemma {:induction false} IndexesAppend(a: seq<View>, b: seq<View>, base: nat, maximum: nat, bad: bool)
    ensures Indexes(a + b, base, maximum, bad) == Indexes(a, base, maximum, bad) + Indexes(b, base + |a|, maximum, bad)
  {
    hide Bad;
    if b == [] {
      assert a + b == a;
    } else {
      IndexesAppend(a, b[..|b| - 1], base, maximum, bad);
      assert (a + b)[..|a + b| - 1] == a + b[..|b| - 1];
    }
  }

  ghost predicate Increasing(s: seq<nat>) {
    forall i, j :: 0 <= i < j < |s| ==> s[i] < s[j]
  }

  ghost predicate Selects(s: seq<nat>, vs: seq<View>, base: nat, maximum: nat, bad: bool) {
    && (forall i :: 0 <= i < |s| ==> base <= s[i] < base + |vs| && Bad(vs[s[i] - base], maximum) == bad)
    && (forall k :: 0 <= k < |vs| && Bad(vs[k], maximum) == bad ==> base + k in s)
  }

  /** Every position is in exactly one of the two lists, and both are increasing. */
  lemma {:induction false} IndexesPartition(vs: seq<View>, base: nat, maximum: nat, bad: bool)
    ensures Increasing(Indexes(vs, base, maximum, bad))
    ensures Selects(Indexes(vs, base, maximum, bad), vs, base, maximum, bad)
  {
    hide Bad;
    if vs != [] {
      var n := |vs| - 1;
      var s := Indexes(vs[..n], base, maximum, bad);
      IndexesPartition(vs[..n], base, maximum, bad);
      SelectsOneMore(s, vs, base, maximum, bad);
    }
  }

  /** What the indexes select among all views but the last. */
  ghost predicate SelectsBefore(s: seq<nat>, vs: seq<View>, base: nat, maximum: nat, bad: bool, n: nat)
    requires n <= |vs|
  {
    && (forall i :: 0 <= i < |s| ==> base <= s[i] < base + n && Bad(vs[s[i] - base], maximum) == bad)
    && (forall k :: 0 <= k < n && Bad(vs[k], maximum) == bad ==> base + k in s)
  }

  lemma SelectsPrefix(s: seq<nat>, vs: seq<View>, base: nat, maximum: nat, bad: bool, n: nat)
    requires n <= |vs| && Selects(s, vs[..n], base, maximum, bad)
    ensures SelectsBefore(s, vs, base, maximum, bad, n)
  {
    hide Bad;
    assert forall k :: 0 <= k < n ==> vs[..n][k] == vs[k];
  }

  lemma SelectsOneMore(s: seq<nat>, vs: seq<View>, base: nat, maximum: nat, bad: bool)
    requires vs != [] && Increasing(s) && Selects(s, vs[..|vs| - 1], base, maximum, bad)
    ensures var t := s + if Bad(vs[|vs| - 1], maximum) == bad then [base + |vs| - 1] else [];
            Increasing(t) && Selects(t, vs, base, maximum, bad)
  {
    hide Bad, Selects;
    SelectsPrefix(s, vs, base, maximum, bad, |vs| - 1);
    TakesNext(s, vs, base, maximum, bad);
  }

  lemma TakesNext(s: seq<nat>, vs: seq<View>, base: nat, maximum: nat, bad: bool)
    requires vs != [] && Increasing(s) && SelectsBefore(s, vs, base, maximum, bad, |vs| - 1)
    ensures var t := s + if Bad(vs[|vs| - 1], maximum) == bad then [base + |vs| - 1] else [];
            Increasing(t) && Selects(t, vs, base, maximum, bad)
  {
    hide Bad, Increasing, Selects, SelectsBefore;
    if Bad(vs[|vs| - 1], maximum) == bad {
      TakesLast(s, vs, base, maximum, bad);
    } else {
      LeavesLast(s, vs, base, maximum, bad);
      assert s + [] == s;
    }
  }

  lemma LeavesLast(s: seq<nat>, vs: seq<View>, base: nat, maximum: nat, bad: bool)
    requires vs != [] && SelectsBefore(s, vs, base, maximum, bad, |vs| - 1) && Bad(vs[|vs| - 1], maximum) != bad
    ensures Selects(s, vs, base, maximum, bad)
  {
    hide Bad;
  }

  lemma TakesLast(s: seq<nat>, vs: seq<View>, base: nat, maximum: nat, bad: bool)
    requires vs != [] && Increasing(s) && SelectsBefore(s, vs, base, maximum, bad, |vs| - 1)
    requires Bad(vs[|vs| - 1], maximum) == bad
    ensures Increasing(s + [base + |vs| - 1]) && Selects(s + [base + |vs| - 1], vs, base, maximum, bad)
  {
    hide Bad;
    var n := |vs| - 1;
    var t := s + [base + n];
    assert t[|s|] == base + n;
    forall k | 0 <= k < |vs| && Bad(vs[k], maximum) == bad ensures base + k in t {
      if k < n { assert base + k in s; }
    }
  }

  /** The survivors are the good positions' views, in order. */
  lemma {:induction false} GoodIsIndexed(vs: seq<View>, maximum: nat)
    ensures |Good(vs, maximum)| == |Indexes(vs, 0, maximum, false)|
    ensures forall i :: 0 <= i < |Good(vs, maximum)| ==>
              Indexes(vs, 0, maximum, false)[i] < |vs| && Good(vs, maximum)[i] == vs[Indexes(vs, 0, maximum, false)[i]]
  {
    hide Bad;
    if vs != [] { GoodIsIndexed(vs[..|vs| - 1], maximum); }
  }

  lemma {:induction false} AllBad(vs: seq<View>, maximum: nat)
    requires forall i :: 0 <= i < |vs| ==> Bad(vs[i], maximum)
    ensures Good(vs, maximum) == []
  {
    hide Bad;
    if vs != [] { AllBad(vs[..|vs| - 1], maximum); }
  }

  // ---------------------------------------------------------------- the loops

  /** The fields read so far and the bytes still to be read make up the message. */
  ghost predicate Midway(data: bytes, done: seq<Field>, rest: bytes) {
    Fields(data) == if Fields(rest).None? then None else Some(done + Fields(rest).value)
  }

  lemma MidwayStep(data: bytes, done: seq<Field>, rest: bytes)
    requires Midway(data, done, rest) && rest != []
    ensures ReadField(rest).None? ==> Fields(data).None?
    ensures ReadField(rest).Some? ==> Midway(data, done + [ReadField(rest).value], rest[|ReadField(rest).value.raw|..]) && Proper(ReadField(rest).value)
  {
    if ReadField(rest).Some? {
      FieldIsProper(rest);
      var f := ReadField(rest).value;
      hide ReadField, Proper;
      var more := Fields(rest[|f.raw|..]);
      if more.Some? { assert done + ([f] + more.value) == (done + [f]) + more.value; }
    }
  }

  /** The output so far: proper fields, no longer than what was read for them. */
  ghost predicate Written(out: bytes, ofs: seq<Field>, done: seq<Field>) {
    out == Flat(ofs) && (forall i :: 0 <= i < |ofs| ==> Proper(ofs[i])) && |out| <= |Flat(done)|
  }

  lemma WrittenFields(out: bytes, ofs: seq<Field>, done: seq<Field>)
    requires Written(out, ofs, done)
    ensures Fields(out) == Some(ofs)
  {
    FlatReadsBack(ofs);
  }

  lemma WriteField(out: bytes, ofs: seq<Field>, done: seq<Field>, f: Field, g: Field)
    requires Written(out, ofs, done) && Proper(g) && |g.raw| <= |f.raw|
    ensures Written(out + g.raw, ofs + [g], done + [f])
  {
    hide Proper;
    FlatSnoc(ofs, g);
    FlatSnoc(done, f);
  }

  lemma SkipField(out: bytes, ofs: seq<Field>, done: seq<Field>, f: Field)
    requires Written(out, ofs, done)
    ensures Written(out, ofs, done + [f])
  {
    FlatSnoc(done, f);
  }

  /** The field's own length prefix is at least as long as the shortest one for its payload. */
  lemma FieldIsNoShorter(b: bytes)
    requires ReadField(b).Some? && ReadField(b).value.wire == BYTES && |b| < U64
    ensures var f := ReadField(b).value;
            |Uvarint(8 * f.number + BYTES)| + |Uvarint(|f.value|)| + |f.value| <= |f.raw|
    ensures 1 <= ReadField(b).value.number <= MAX_INT32
  {
    var t := ReadTag(b).value;
    UvarintIsShortest(b, 0);
    UvarintIsShortest(b[t.2..], 0);
    TagValue(b);
    hide Uvarint, ReadUvarint;
  }

  /** Re-encoding a message with no longer contents never lengthens its field. */
  lemma EmittedFits(b: bytes, replacement: bytes)
    requires ReadField(b).Some? && ReadField(b).value.wire == BYTES && |replacement| <= |ReadField(b).value.value|
    requires |b| < U64
    ensures var f := ReadField(b).value; var g := Emitted(f.number, replacement);
            Proper(g) && |g.raw| <= |f.raw| && IsMessage(g, f.number) && g.value == replacement
  {
    hide Uvarint, ReadUvarint, ReadField;
    var f := ReadField(b).value;
    FieldIsNoShorter(b);
    UvarintGrows(|replacement|, |f.value|);
    EmittedIsProper(f.number, replacement);
  }

  lemma TagValue(b: bytes)
    requires ReadTag(b).Some?
    ensures ReadUvarint(b, 0) == Some((8 * ReadTag(b).value.0 + ReadTag(b).value.1, ReadTag(b).value.2))
    ensures 1 <= ReadTag(b).value.0 <= MAX_INT32
  {
  }

  function Blanked(ms: seq<bytes>, blank: bool): (out: seq<bytes>)
    ensures |out| == |ms|
  {
    if !blank then ms else seq(|ms|, i requires 0 <= i < |ms| => [])
  }

  /** What a message holds besides the messages of the given numbers. */
  function Rest(b: bytes, touched: set<nat>): seq<Field> {
    if Fields(b).None? then [] else Others(Fields(b).value, touched)
  }

  /** rewriteMessages over a field that is kept as it is or emptied. */
  method RewriteKeeping(data: bytes, number: nat, blank: bool, ghost touched: set<nat>) returns (out: bytes, ok: bool)
    requires |data| < U64 && number in touched
    ensures ok <==> Fields(data).Some?
    ensures ok ==> |out| <= |data| && Fields(out).Some? && Part1(out, number) == Blanked(Part1(data, number), blank)
    ensures ok ==> forall k :: k != number ==> Part1(out, k) == Part1(data, k)
    ensures ok ==> Rest(out, touched) == Rest(data, touched)
  {
    hide ReadField, Proper, Fields, Flat, Emitted, Others;
    out, ok := [], true;
    var rest := data;
    ghost var done: seq<Field>, ofs: seq<Field> := [], [];
    StartMidway(data);
    while rest != []
      invariant Midway(data, done, rest) && Written(out, ofs, done) && |rest| <= |data|
      invariant Messages(ofs, number) == Blanked(Messages(done, number), blank)
      invariant forall k :: k != number ==> Messages(ofs, k) == Messages(done, k)
      invariant Others(ofs, touched) == Others(done, touched)
      decreases |rest|
    {
      MidwayStep(data, done, rest);
      var f := ReadField(rest);
      if f.None? { return [], false; }
      var field := f.value;
      ghost var g := field;
      if field.number == number && field.wire == BYTES {
        var replacement := if blank then [] else field.value;
        EmittedFits(rest, replacement);
        g := Emitted(number, replacement);
        EmittedRaw(number, replacement);
        out := out + (Uvarint(8 * number + BYTES) + (Uvarint(|replacement|) + replacement));
      } else {
        out := out + field.raw;
      }
      WriteField(out[..|out| - |g.raw|], ofs, done, field, g);
      KeepingStep(ofs, done, field, g, number, blank);
      OthersStep(ofs, done, field, g, touched);
      ofs, done := ofs + [g], done + [field];
      rest := rest[|field.raw|..];
    }
    EndMidway(data, done, out, ofs);
  }

  lemma EmittedRaw(number: nat, value: bytes)
    ensures Emitted(number, value).raw == Uvarint(8 * number + BYTES) + (Uvarint(|value|) + value)
  {
  }

  lemma StartMidway(data: bytes)
    ensures Midway(data, [], data) && Written([], [], []) && forall k :: Messages([], k) == []
  {
    if Fields(data).Some? { assert [] + Fields(data).value == Fields(data).value; }
  }

  lemma EndMidway(data: bytes, done: seq<Field>, out: bytes, ofs: seq<Field>)
    requires Midway(data, done, []) && Written(out, ofs, done)
    ensures Fields(data) == Some(done) && Fields(out) == Some(ofs) && |out| <= |data|
  {
    assert done + [] == done;
    WrittenFields(out, ofs, done);
    FieldsAreProper(data);
  }

  lemma KeepingStep(ofs: seq<Field>, done: seq<Field>, f: Field, g: Field, number: nat, blank: bool)
    requires Messages(ofs, number) == Blanked(Messages(done, number), blank)
    requires forall k :: k != number ==> Messages(ofs, k) == Messages(done, k)
    requires if IsMessage(f, number) then IsMessage(g, number) && g.value == (if blank then [] else f.value) else g == f
    ensures Messages(ofs + [g], number) == Blanked(Messages(done + [f], number), blank)
    ensures forall k :: k != number ==> Messages(ofs + [g], k) == Messages(done + [f], k)
  {
    MessagesSnoc(ofs, g, number);
    MessagesSnoc(done, f, number);
    forall k | k != number ensures Messages(ofs + [g], k) == Messages(done + [f], k) {
      MessagesSnoc(ofs, g, k);
      MessagesSnoc(done, f, k);
    }
  }
}
