/** sanitizeNesting over a whole request, level by level. */
module WireRequest {
  import opened Basics
  import opened Encoding
  import opened Wire
  import opened WireValues
  import opened WireSanitizer

  // ---------------------------------------------------------------- the check over repeated messages

  /** anyMessageFieldExceeds(..., attributesExceed) over the messages of one number. */
  function MessagesExceed(b: bytes, number: nat, field: nat, maximum: nat): Option<bool>
    decreases |b|
  {
    if b == [] then Some(false)
    else
      var f := ReadField(b);
      if f.None? then None
      else
        var rest := MessagesExceed(b[|f.value.raw|..], number, field, maximum);
        if IsMessage(f.value, number) then Walk(EntriesExceed(f.value.value, field, 1, maximum), rest) else rest
  }

  lemma MessagesFront(f: Field, rest: seq<Field>, number: nat)
    ensures Messages([f] + rest, number) == (if IsMessage(f, number) then [f.value] else []) + Messages(rest, number)
  {
    MessagesAppend([f], rest, number);
    assert [f][..0] == [];
  }

  /** When it has an answer for a message that can be read to its end, it is the right one. */
  lemma {:induction false} MessagesExceedExact(b: bytes, number: nat, field: nat, maximum: nat)
    requires Fields(b).Some? && MessagesExceed(b, number, field, maximum).Some?
    ensures MessagesExceed(b, number, field, maximum).value <==> AnyExceeds(Part1(b, number), field, maximum)
    decreases |b|
  {
    hide ReadField, EntriesExceed;
    if b != [] {
      var f := ReadField(b).value;
      var tail := b[|f.raw|..];
      MessagesFront(f, Fields(tail).value, number);
      var ms, more := Part1(b, number), Part1(tail, number);
      if MessagesExceed(tail, number, field, maximum).Some? { MessagesExceedExact(tail, number, field, maximum); }
      if IsMessage(f, number) {
        assert ms == [f.value] + more && f.value in ms;
        assert forall m :: m in ms <==> m == f.value || m in more;
      } else {
        assert ms == [] + more == more;
      }
    }
  }

  lemma {:induction false} MessagesExceedAnswers(b: bytes, number: nat, field: nat, maximum: nat)
    requires Fields(b).Some? && forall m :: m in Part1(b, number) ==> ParseEntries(m, field).Some?
    ensures MessagesExceed(b, number, field, maximum).Some?
    decreases |b|
  {
    hide ReadField, EntriesExceed, ParseEntries;
    if b != [] {
      var f := ReadField(b).value;
      var tail := b[|f.raw|..];
      MessagesFront(f, Fields(tail).value, number);
      var ms, more := Part1(b, number), Part1(tail, number);
      assert forall m :: m in more ==> m in ms;
      MessagesExceedAnswers(tail, number, field, maximum);
      if IsMessage(f, number) {
        assert f.value in ms;
        EntriesDepthExact(f.value, field, 1, maximum);
      }
    }
  }

  // ---------------------------------------------------------------- the running tally

  datatype Tally = Tally(index: nat, rejected: seq<nat>, accepted: seq<nat>)

  /** The tally after some views: rejected and accepted original positions in the order met. */
  function Tallied(t: Tally, vs: seq<View>, maximum: nat): Tally {
    Tally(t.index + |vs|, t.rejected + Indexes(vs, t.index, maximum, true),
          t.accepted + Indexes(vs, t.index, maximum, false))
  }

  lemma TalliedAppend(t: Tally, a: seq<View>, b: seq<View>, maximum: nat)
    ensures Tallied(t, a + b, maximum) == Tallied(Tallied(t, a, maximum), b, maximum)
  {
    IndexesAppend(a, b, t.index, maximum, true);
    IndexesAppend(a, b, t.index, maximum, false);
    hide Indexes;
    var ra, rb := Indexes(a, t.index, maximum, true), Indexes(b, t.index + |a|, maximum, true);
    var aa, ab := Indexes(a, t.index, maximum, false), Indexes(b, t.index + |a|, maximum, false);
    assert t.rejected + (ra + rb) == (t.rejected + ra) + rb && t.accepted + (aa + ab) == (t.accepted + aa) + ab;
  }

  lemma TalliedNothing(t: Tally, maximum: nat)
    ensures Tallied(t, [], maximum) == t
  {
    assert t.rejected + [] == t.rejected && t.accepted + [] == t.accepted;
  }

  lemma TalliedOne(t: Tally, v: View, maximum: nat)
    ensures Tallied(t, [v], maximum) == if Bad(v, maximum) then Tally(t.index + 1, t.rejected + [t.index], t.accepted)
                                        else Tally(t.index + 1, t.rejected, t.accepted + [t.index])
  {
    hide Bad;
    OneIndex(v, t.index, maximum, true);
    OneIndex(v, t.index, maximum, false);
    assert t.rejected + [] == t.rejected && t.accepted + [] == t.accepted;
  }

  lemma OneIndex(v: View, base: nat, maximum: nat, bad: bool)
    ensures Indexes([v], base, maximum, bad) == if Bad(v, maximum) == bad then [base] else []
  {
    hide Bad;
    assert [v][..0] == [];
    assert Indexes([v][..0], base, maximum, bad) == [];
    assert [v][|[v]| - 1] == v;
  }

  // ---------------------------------------------------------------- scope logs

  function Records(vs: seq<View>): (rs: seq<bytes>)
    ensures |rs| == |vs| && forall i :: 0 <= i < |vs| ==> rs[i] == vs[i].record
  {
    seq(|vs|, i requires 0 <= i < |vs| => vs[i].record)
  }

  lemma {:induction false} GoodKeepsContext(vs: seq<View>, maximum: nat, resource: seq<bytes>, scope: seq<bytes>)
    requires forall i :: 0 <= i < |vs| ==> vs[i].resource == resource && vs[i].scope == scope
    ensures RecordViews(Records(Good(vs, maximum)), resource, scope) == Good(vs, maximum)
  {
    hide Bad;
    if vs != [] {
      GoodKeepsContext(vs[..|vs| - 1], maximum, resource, scope);
      var g := Good(vs[..|vs| - 1], maximum);
      assert forall i :: 0 <= i < |g| ==> g[i] == RecordViews(Records(g), resource, scope)[i];
    }
  }

  lemma OneMoreRecord(records: seq<bytes>, record: bytes, resource: seq<bytes>, scope: seq<bytes>, maximum: nat)
    ensures RecordViews(records + [record], resource, scope) ==
              RecordViews(records, resource, scope) + [View(record, resource, scope)]
    ensures Good(RecordViews(records + [record], resource, scope), maximum)
            == Good(RecordViews(records, resource, scope), maximum) +
               if Bad(View(record, resource, scope), maximum) then [] else [View(record, resource, scope)]
  {
    hide Bad;
    var a, b := RecordViews(records, resource, scope), [View(record, resource, scope)];
    assert RecordViews(records + [record], resource, scope) == a + b;
    assert (a + b)[..|a + b| - 1] == a;
  }

  /** What the record loop has established over the fields read so far. */
  ghost predicate ScopeProgress(ofs: seq<Field>, done: seq<Field>, resource: seq<bytes>, scope: seq<bytes>,
                                maximum: nat, start: Tally, t: Tally) {
    && Messages(ofs, SCOPE) == Messages(done, SCOPE)
    && Messages(ofs, LOG_RECORD) == Records(Good(RecordViews(Messages(done, LOG_RECORD), resource, scope), maximum))
    && t == Tallied(start, RecordViews(Messages(done, LOG_RECORD), resource, scope), maximum)
  }

  lemma ScopeStart(resource: seq<bytes>, scope: seq<bytes>, maximum: nat, t: Tally)
    ensures ScopeProgress([], [], resource, scope, maximum, t, t)
  {
    TalliedNothing(t, maximum);
  }

  lemma ScopeStep(ofs: seq<Field>, done: seq<Field>, f: Field, resource: seq<bytes>, scope: seq<bytes>, maximum: nat,
                  start: Tally, t: Tally)
    requires ScopeProgress(ofs, done, resource, scope, maximum, start, t)
    ensures !IsMessage(f, LOG_RECORD) ==> ScopeProgress(ofs + [f], done + [f], resource, scope, maximum, start, t)
    ensures IsMessage(f, LOG_RECORD) && Bad(View(f.value, resource, scope), maximum) ==>
              ScopeProgress(ofs, done + [f], resource, scope, maximum, start,
                            Tally(t.index + 1, t.rejected + [t.index], t.accepted))
    ensures forall g :: IsMessage(f, LOG_RECORD) && IsMessage(g, LOG_RECORD) && g.value == f.value && !Bad(View(f.value, resource, scope), maximum) ==>
              ScopeProgress(ofs + [g], done + [f], resource, scope, maximum, start,
                            Tally(t.index + 1, t.rejected, t.accepted + [t.index]))
  {
    hide Bad, Good, Tallied, Messages;
    MessagesSnoc(done, f, SCOPE);
    MessagesSnoc(done, f, LOG_RECORD);
    MessagesSnoc(ofs, f, SCOPE);
    MessagesSnoc(ofs, f, LOG_RECORD);
    var records := Messages(done, LOG_RECORD);
    assert records + [] == records && Messages(ofs, LOG_RECORD) + [] == Messages(ofs, LOG_RECORD);
    assert Messages(done, SCOPE) + [] == Messages(done, SCOPE);
    if IsMessage(f, LOG_RECORD) {
      var v := View(f.value, resource, scope);
      OneMoreRecord(records, f.value, resource, scope, maximum);
      TalliedAppend(start, RecordViews(records, resource, scope), [v], maximum);
      TalliedOne(t, v, maximum);
      var good := Good(RecordViews(records, resource, scope), maximum);
      assert Records(good + []) == Records(good) && Records(good + [v]) == Records(good) + [f.value];
      forall g | IsMessage(g, LOG_RECORD) && g.value == f.value && !Bad(v, maximum)
        ensures ScopeProgress(ofs + [g], done + [f], resource, scope, maximum, start, Tally(t.index + 1, t.rejected, t.accepted + [t.index]))
      {
        MessagesSnoc(ofs, g, SCOPE);
        MessagesSnoc(ofs, g, LOG_RECORD);
        assert Messages(ofs, SCOPE) + [] == Messages(ofs, SCOPE);
      }
    }
  }

  const IN_SCOPE_LOGS: set<nat> := {SCOPE, LOG_RECORD}
  const IN_RESOURCE_LOGS: set<nat> := {RESOURCE, SCOPE_LOGS}

  /** Nothing besides the scope and the records differs. */
  ghost predicate ScopeLogsKept(before: bytes, after: bytes) {
    Rest(after, IN_SCOPE_LOGS) == Rest(before, IN_SCOPE_LOGS)
  }

  /** Nothing besides the resource differs, but for what may differ inside each of the scope logs. */
  ghost predicate ResourceLogsKept(before: bytes, after: bytes) {
    Rest(after, IN_RESOURCE_LOGS) == Rest(before, IN_RESOURCE_LOGS) &&
    AllKept(Part1(before, SCOPE_LOGS), Part1(after, SCOPE_LOGS), ScopeLogsKept)
  }

  /** Nothing differs but for what may differ inside each of the resource logs. */
  ghost predicate RequestKept(before: bytes, after: bytes) {
    Rest(after, {1}) == Rest(before, {1}) && AllKept(Part1(before, 1), Part1(after, 1), ResourceLogsKept)
  }

  ghost predicate AllKept(before: seq<bytes>, after: seq<bytes>, kept: (bytes, bytes) -> bool) {
    |after| == |before| && forall i :: 0 <= i < |before| ==> kept(before[i], after[i])
  }

  /** One more field: copied, or a message rewritten into one that keeps what it must. */
  lemma RestStep(ofs: seq<Field>, done: seq<Field>, f: Field, g: Field, number: nat, touched: set<nat>,
                 kept: (bytes, bytes) -> bool)
    requires number in touched && Others(ofs, touched) == Others(done, touched)
    requires AllKept(Messages(done, number), Messages(ofs, number), kept)
    requires if IsMessage(f, number) then IsMessage(g, number) && kept(f.value, g.value) else f == g
    ensures Others(ofs + [g], touched) == Others(done + [f], touched)
    ensures AllKept(Messages(done + [f], number), Messages(ofs + [g], number), kept)
  {
    OthersStep(ofs, done, f, g, touched);
    hide Others, Messages;
    MessagesSnoc(ofs, g, number);
    MessagesSnoc(done, f, number);
    var before, after := Messages(done, number), Messages(ofs, number);
    assert before + [] == before && after + [] == after;
  }

  /** rewriteScopeLogs: `resource` is the resource messages the records inherit. */
  method RewriteScopeLogs(data: bytes, resourceBad: bool, scopeBad: bool, maximum: nat, start: Tally,
                          ghost resource: seq<bytes>)
    returns (out: bytes, t: Tally, ok: bool)
    requires |data| < U64
    requires resourceBad <==> AnyExceeds(resource, RESOURCE_ATTRIBUTES, maximum)
    requires Fields(data).Some? ==> (scopeBad <==> AnyExceeds(Part1(data, SCOPE), SCOPE_ATTRIBUTES, maximum))
    ensures ok ==> Fields(data).Some? && Fields(out).Some? && |out| <= |data|
    ensures ok ==> t == Tallied(start, ScopeViews(data, resource), maximum)
    ensures ok ==> ScopeViews(out, Blanked(resource, resourceBad)) == Good(ScopeViews(data, resource), maximum)
    ensures ok ==> ScopeLogsKept(data, out)
    ensures ReadableScopeLogs(data) ==> ok
  {
    hide ReadField, Proper, Fields, Flat, Emitted, Tallied, Bad, Good, RecordExceeds, AnyExceeds, ReadableRecord,
         Messages, ScopeProgress, Midway,
         Written, Others;
    out, t, ok := [], start, false;
    var withScope, kept := RewriteKeeping(data, SCOPE, scopeBad, IN_SCOPE_LOGS);
    if !kept { return; }
    ghost var scope := Part1(data, SCOPE);
    var rest := withScope;
    ghost var done: seq<Field>, ofs: seq<Field> := [], [];
    StartMidway(withScope);
    ScopeStart(resource, scope, maximum, start);
    while rest != []
      invariant Midway(withScope, done, rest) && Written(out, ofs, done) && |rest| <= |withScope| <= |data|
      invariant ScopeProgress(ofs, done, resource, scope, maximum, start, t)
      invariant Others(ofs, IN_SCOPE_LOGS) == Others(done, IN_SCOPE_LOGS)
      decreases |rest|
    {
      MidwayStep(withScope, done, rest);
      var f := ReadField(rest);
      if f.None? { return; }
      var field := f.value;
      ScopeStep(ofs, done, field, resource, scope, maximum, start, t);
      if field.number == LOG_RECORD && field.wire == BYTES {
        RecordIsPart(withScope, done, rest);
        var recordBad := RecordExceeds(field.value, maximum);
        if recordBad.None? {
          UnreadableRecord(data, field.value, maximum);
          return;
        }
        VerdictOf(field.value, resource, scope, maximum);
        if resourceBad || scopeBad || recordBad.value {
          t := Tally(t.index + 1, t.rejected + [t.index], t.accepted);
          SkipField(out, ofs, done, field);
          OthersStep(ofs, done, field, field, IN_SCOPE_LOGS);
        } else {
          t := Tally(t.index + 1, t.rejected, t.accepted + [t.index]);
          EmittedFits(rest, field.value);
          EmittedRaw(LOG_RECORD, field.value);
          ghost var g := Emitted(LOG_RECORD, field.value);
          WriteField(out, ofs, done, field, g);
          OthersStep(ofs, done, field, g, IN_SCOPE_LOGS);
          out := out + (Uvarint(8 * LOG_RECORD + BYTES) + (Uvarint(|field.value|) + field.value));
          ofs := ofs + [g];
        }
      } else {
        WriteField(out, ofs, done, field, field);
        OthersStep(ofs, done, field, field, IN_SCOPE_LOGS);
        out := out + field.raw;
        ofs := ofs + [field];
      }
      done := done + [field];
      rest := rest[|field.raw|..];
    }
    EndMidway(withScope, done, out, ofs);
    ScopeDone(data, withScope, out, done, ofs, resourceBad, scopeBad, resource, maximum, start, t);
    ok := true;
  }

  /** The field about to be handled belongs to the message, if the message can be read at all. */
  lemma RecordIsPart(b: bytes, done: seq<Field>, rest: bytes)
    requires Midway(b, done, rest) && rest != [] && ReadField(rest).Some?
    ensures Fields(b).Some? && IsMessage(ReadField(rest).value, LOG_RECORD) ==>
              ReadField(rest).value.value in Part1(b, LOG_RECORD)
    ensures Fields(b).Some? ==> forall n :: IsMessage(ReadField(rest).value, n) ==>
                                  ReadField(rest).value.value in Part1(b, n)
  {
    if Fields(b).Some? {
      var f := ReadField(rest).value;
      var more := Fields(rest[|f.raw|..]).value;
      assert Fields(rest).value == [f] + more;
      forall n | IsMessage(f, n) ensures f.value in Part1(b, n) {
        MessagesAppend(done, [f] + more, n);
        MessagesFront(f, more, n);
        assert f.value in [f.value] + Messages(more, n);
      }
    }
  }

  lemma UnreadableRecord(data: bytes, record: bytes, maximum: nat)
    requires RecordExceeds(record, maximum).None?
    ensures record in Part1(data, LOG_RECORD) ==> !ReadableScopeLogs(data)
  {
    if ReadableRecord(record) { RecordDepthExact(record, maximum); }
    hide RecordExceeds, ReadableRecord, Part1;
  }

  lemma VerdictOf(record: bytes, resource: seq<bytes>, scope: seq<bytes>, maximum: nat)
    requires RecordExceeds(record, maximum).Some?
    ensures Bad(View(record, resource, scope), maximum) <==>
              AnyExceeds(resource, RESOURCE_ATTRIBUTES, maximum) || AnyExceeds(scope, SCOPE_ATTRIBUTES, maximum) || RecordExceeds(record, maximum).value
  {
  }

  lemma ScopeDone(data: bytes, withScope: bytes, out: bytes, done: seq<Field>, ofs: seq<Field>, resourceBad: bool,
                  scopeBad: bool,
                  resource: seq<bytes>, maximum: nat, start: Tally, t: Tally)
    requires Fields(withScope) == Some(done) && Fields(out) == Some(ofs) && Fields(data).Some?
    requires Part1(withScope, SCOPE) == Blanked(Part1(data, SCOPE), scopeBad)
    requires Part1(withScope, LOG_RECORD) == Part1(data, LOG_RECORD)
    requires ScopeProgress(ofs, done, resource, Part1(data, SCOPE), maximum, start, t)
    requires resourceBad <==> AnyExceeds(resource, RESOURCE_ATTRIBUTES, maximum)
    requires scopeBad <==> AnyExceeds(Part1(data, SCOPE), SCOPE_ATTRIBUTES, maximum)
    ensures t == Tallied(start, ScopeViews(data, resource), maximum)
    ensures ScopeViews(out, Blanked(resource, resourceBad)) == Good(ScopeViews(data, resource), maximum)
  {
    hide Tallied, Good, AnyExceeds, Messages, RecordExceeds;
    var scope := Part1(data, SCOPE);
    var vs := ScopeViews(data, resource);
    if resourceBad || scopeBad {
      assert forall i :: 0 <= i < |vs| ==> Bad(vs[i], maximum);
      AllBad(vs, maximum);
      assert ScopeViews(out, Blanked(resource, resourceBad)) == [];
    } else {
      GoodKeepsContext(vs, maximum, resource, scope);
    }
  }

  // ---------------------------------------------------------------- resource logs

  lemma AllScopeViewsSnoc(logs: seq<bytes>, m: bytes, resource: seq<bytes>)
    ensures AllScopeViews(logs + [m], resource) == AllScopeViews(logs, resource) + ScopeViews(m, resource)
  {
    assert (logs + [m])[..|logs|] == logs;
  }

  ghost predicate ResourceProgress(ofs: seq<Field>, done: seq<Field>, resourceBad: bool, resource: seq<bytes>,
                                   maximum: nat, start: Tally, t: Tally) {
    && Messages(ofs, RESOURCE) == Messages(done, RESOURCE)
    &&
       AllScopeViews(Messages(ofs, SCOPE_LOGS),
                     Blanked(resource, resourceBad)) == Good(AllScopeViews(Messages(done, SCOPE_LOGS), resource),
                                                             maximum)
    && t == Tallied(start, AllScopeViews(Messages(done, SCOPE_LOGS), resource), maximum)
  }

  lemma ResourceStart(resourceBad: bool, resource: seq<bytes>, maximum: nat, t: Tally)
    ensures ResourceProgress([], [], resourceBad, resource, maximum, t, t)
  {
    TalliedNothing(t, maximum);
  }

  lemma ResourceOther(ofs: seq<Field>, done: seq<Field>, f: Field, resourceBad: bool, resource: seq<bytes>,
                      maximum: nat, start: Tally, t: Tally)
    requires ResourceProgress(ofs, done, resourceBad, resource, maximum, start, t) && !IsMessage(f, SCOPE_LOGS)
    ensures ResourceProgress(ofs + [f], done + [f], resourceBad, resource, maximum, start, t)
  {
    hide Good, Tallied, Messages, AllScopeViews;
    MessagesSnoc(done, f, RESOURCE);
    MessagesSnoc(done, f, SCOPE_LOGS);
    MessagesSnoc(ofs, f, RESOURCE);
    MessagesSnoc(ofs, f, SCOPE_LOGS);
    assert Messages(done, SCOPE_LOGS) + [] == Messages(done, SCOPE_LOGS);
    assert Messages(ofs, SCOPE_LOGS) + [] == Messages(ofs, SCOPE_LOGS);
  }

  lemma ResourceStep(ofs: seq<Field>, done: seq<Field>, f: Field, g: Field, resourceBad: bool, resource: seq<bytes>,
                     maximum: nat,
                     start: Tally, t: Tally, t': Tally)
    requires ResourceProgress(ofs, done, resourceBad, resource, maximum, start, t) && IsMessage(f, SCOPE_LOGS)
    requires IsMessage(g, SCOPE_LOGS)
    requires ScopeViews(g.value, Blanked(resource, resourceBad)) == Good(ScopeViews(f.value, resource), maximum)
    requires t' == Tallied(t, ScopeViews(f.value, resource), maximum)
    ensures ResourceProgress(ofs + [g], done + [f], resourceBad, resource, maximum, start, t')
  {
    hide Good, Tallied, Messages, AllScopeViews, ScopeViews;
    MessagesSnoc(done, f, RESOURCE);
    MessagesSnoc(done, f, SCOPE_LOGS);
    MessagesSnoc(ofs, g, RESOURCE);
    MessagesSnoc(ofs, g, SCOPE_LOGS);
    assert Messages(done, RESOURCE) + [] == Messages(done, RESOURCE);
    assert Messages(ofs, RESOURCE) + [] == Messages(ofs, RESOURCE);
    AllScopeViewsSnoc(Messages(done, SCOPE_LOGS), f.value, resource);
    AllScopeViewsSnoc(Messages(ofs, SCOPE_LOGS), g.value, Blanked(resource, resourceBad));
    GoodAppend(AllScopeViews(Messages(done, SCOPE_LOGS), resource), ScopeViews(f.value, resource), maximum);
    TalliedAppend(start, AllScopeViews(Messages(done, SCOPE_LOGS), resource), ScopeViews(f.value, resource), maximum);
  }

  lemma NothingKept(kept: (bytes, bytes) -> bool)
    ensures Others([], IN_RESOURCE_LOGS) == [] && forall number :: AllKept(Messages([], number), Messages([], number), kept)
  {
  }

  /** rewriteResourceLogs. */
  method RewriteResourceLogs(data: bytes, resourceBad: bool, maximum: nat, start: Tally)
    returns (out: bytes, t: Tally, ok: bool)
    requires |data| < U64
    requires Fields(data).Some? ==> (resourceBad <==> AnyExceeds(Part1(data, RESOURCE), RESOURCE_ATTRIBUTES, maximum))
    ensures ok ==> Fields(data).Some? && Fields(out).Some? && |out| <= |data|
    ensures ok ==> t == Tallied(start, ResourceViews(data), maximum) && ResourceViews(out) == Good(ResourceViews(data), maximum)
    ensures ok ==> ResourceLogsKept(data, out)
    ensures ReadableResourceLogs(data) ==> ok
  {
    hide ReadField, Proper, Fields, Flat, Emitted, Tallied, Good, AnyExceeds, Messages, ResourceProgress, Midway,
         Written, MessagesExceed,
         ScopeViews, ReadableScopeLogs, AllScopeViews, Others, ScopeLogsKept, AllKept;
    out, t, ok := [], start, false;
    var withResource, kept := RewriteKeeping(data, RESOURCE, resourceBad, IN_RESOURCE_LOGS);
    if !kept { return; }
    ghost var resource := Part1(data, RESOURCE);
    var rest := withResource;
    ghost var done: seq<Field>, ofs: seq<Field> := [], [];
    StartMidway(withResource);
    ResourceStart(resourceBad, resource, maximum, start);
    NothingKept(ScopeLogsKept);
    while rest != []
      invariant Midway(withResource, done, rest) && Written(out, ofs, done) && |rest| <= |withResource| <= |data|
      invariant ResourceProgress(ofs, done, resourceBad, resource, maximum, start, t)
      invariant Others(ofs, IN_RESOURCE_LOGS) == Others(done, IN_RESOURCE_LOGS)
      invariant AllKept(Messages(done, SCOPE_LOGS), Messages(ofs, SCOPE_LOGS), ScopeLogsKept)
      decreases |rest|
    {
      MidwayStep(withResource, done, rest);
      var f := ReadField(rest);
      if f.None? { return; }
      var field := f.value;
      if field.number == SCOPE_LOGS && field.wire == BYTES {
        RecordIsPart(withResource, done, rest);
        var scopeBad := MessagesExceed(field.value, SCOPE, SCOPE_ATTRIBUTES, maximum);
        if scopeBad.None? {
          UnreadableScope(field.value, maximum);
          return;
        }
        ScopeVerdict(field.value, maximum);
        var replacement, next, fine := RewriteScopeLogs(field.value, resourceBad, scopeBad.value, maximum, t, resource);
        if !fine { return; }
        EmittedFits(rest, replacement);
        EmittedRaw(SCOPE_LOGS, replacement);
        ghost var g := Emitted(SCOPE_LOGS, replacement);
        WriteField(out, ofs, done, field, g);
        ResourceStep(ofs, done, field, g, resourceBad, resource, maximum, start, t, next);
        RestStep(ofs, done, field, g, SCOPE_LOGS, IN_RESOURCE_LOGS, ScopeLogsKept);
        t := next;
        out := out + (Uvarint(8 * SCOPE_LOGS + BYTES) + (Uvarint(|replacement|) + replacement));
        ofs := ofs + [g];
      } else {
        WriteField(out, ofs, done, field, field);
        ResourceOther(ofs, done, field, resourceBad, resource, maximum, start, t);
        RestStep(ofs, done, field, field, SCOPE_LOGS, IN_RESOURCE_LOGS, ScopeLogsKept);
        out := out + field.raw;
        ofs := ofs + [field];
      }
      done := done + [field];
      rest := rest[|field.raw|..];
    }
    EndMidway(withResource, done, out, ofs);
    ResourceDone(data, withResource, out, done, ofs, resourceBad, maximum, start, t);
    ok := true;
  }

  lemma UnreadableScope(b: bytes, maximum: nat)
    requires MessagesExceed(b, SCOPE, SCOPE_ATTRIBUTES, maximum).None?
    ensures !ReadableScopeLogs(b)
  {
    hide MessagesExceed, Fields;
    if ReadableScopeLogs(b) { MessagesExceedAnswers(b, SCOPE, SCOPE_ATTRIBUTES, maximum); }
  }

  lemma ScopeVerdict(b: bytes, maximum: nat)
    requires MessagesExceed(b, SCOPE, SCOPE_ATTRIBUTES, maximum).Some?
    ensures Fields(b).Some? ==> (MessagesExceed(b, SCOPE, SCOPE_ATTRIBUTES, maximum).value <==>
                                   AnyExceeds(Part1(b, SCOPE), SCOPE_ATTRIBUTES, maximum))
  {
    hide MessagesExceed, Fields, AnyExceeds;
    if Fields(b).Some? { MessagesExceedExact(b, SCOPE, SCOPE_ATTRIBUTES, maximum); }
  }

  lemma ResourceDone(data: bytes, withResource: bytes, out: bytes, done: seq<Field>, ofs: seq<Field>, resourceBad: bool,
                     maximum: nat, start: Tally, t: Tally)
    requires Fields(withResource) == Some(done) && Fields(out) == Some(ofs) && Fields(data).Some?
    requires Part1(withResource, RESOURCE) == Blanked(Part1(data, RESOURCE), resourceBad)
    requires Part1(withResource, SCOPE_LOGS) == Part1(data, SCOPE_LOGS)
    requires ResourceProgress(ofs, done, resourceBad, Part1(data, RESOURCE), maximum, start, t)
    ensures t == Tallied(start, ResourceViews(data), maximum)
    ensures ResourceViews(out) == Good(ResourceViews(data), maximum)
  {
    hide Tallied, Good, Messages, AllScopeViews;
  }

  // ---------------------------------------------------------------- the request

  lemma AllResourceViewsSnoc(logs: seq<bytes>, m: bytes)
    ensures AllResourceViews(logs + [m]) == AllResourceViews(logs) + ResourceViews(m)
  {
    assert (logs + [m])[..|logs|] == logs;
  }

  ghost predicate RequestProgress(ofs: seq<Field>, done: seq<Field>, maximum: nat, t: Tally) {
    && AllResourceViews(Messages(ofs, 1)) == Good(AllResourceViews(Messages(done, 1)), maximum)
    && t == Tallied(Tally(0, [], []), AllResourceViews(Messages(done, 1)), maximum)
  }

  lemma RequestStart(maximum: nat)
    ensures RequestProgress([], [], maximum, Tally(0, [], []))
  {
    TalliedNothing(Tally(0, [], []), maximum);
  }

  lemma RequestOther(ofs: seq<Field>, done: seq<Field>, f: Field, maximum: nat, t: Tally)
    requires RequestProgress(ofs, done, maximum, t) && !IsMessage(f, 1)
    ensures RequestProgress(ofs + [f], done + [f], maximum, t)
  {
    hide Good, Tallied, Messages, AllResourceViews;
    MessagesSnoc(done, f, 1);
    MessagesSnoc(ofs, f, 1);
    assert Messages(done, 1) + [] == Messages(done, 1) && Messages(ofs, 1) + [] == Messages(ofs, 1);
  }

  lemma RequestStep(ofs: seq<Field>, done: seq<Field>, f: Field, g: Field, maximum: nat, t: Tally, t': Tally)
    requires RequestProgress(ofs, done, maximum, t) && IsMessage(f, 1) && IsMessage(g, 1)
    requires ResourceViews(g.value) == Good(ResourceViews(f.value), maximum)
    requires t' == Tallied(t, ResourceViews(f.value), maximum)
    ensures RequestProgress(ofs + [g], done + [f], maximum, t')
  {
    hide Good, Tallied, Messages, AllResourceViews, ResourceViews;
    MessagesSnoc(done, f, 1);
    MessagesSnoc(ofs, g, 1);
    AllResourceViewsSnoc(Messages(done, 1), f.value);
    AllResourceViewsSnoc(Messages(ofs, 1), g.value);
    GoodAppend(AllResourceViews(Messages(done, 1)), ResourceViews(f.value), maximum);
    TalliedAppend(Tally(0, [], []), AllResourceViews(Messages(done, 1)), ResourceViews(f.value), maximum);
  }

  /**
   * sanitizeNesting: the survivors unchanged and in order, and the original position of every record in exactly one
   * list.
   */
  method SanitizeNesting(data: bytes, maximum: nat)
    returns (out: bytes, rejected: seq<nat>, accepted: seq<nat>, ok: bool)
    requires |data| < U64
    ensures ok ==> Fields(data).Some? && Fields(out).Some? && |out| <= |data|
    ensures ok ==> Views(out) == Good(Views(data), maximum) && RequestKept(data, out)
    ensures ok ==>
              rejected == Indexes(Views(data), 0, maximum, true) && accepted == Indexes(Views(data), 0, maximum, false)
    ensures ReadableRequest(data) ==> ok
  {
    hide ReadField, Proper, Fields, Flat, Emitted, Good, AnyExceeds, Messages, RequestProgress, Midway, Written,
         MessagesExceed,
         ResourceViews, ReadableResourceLogs, AllResourceViews, Indexes, Tallied, Others, ResourceLogsKept, AllKept;
    out, rejected, accepted, ok := [], [], [], false;
    var t := Tally(0, [], []);
    var rest := data;
    ghost var done: seq<Field>, ofs: seq<Field> := [], [];
    StartMidway(data);
    RequestStart(maximum);
    NothingKept(ResourceLogsKept);
    while rest != []
      invariant Midway(data, done, rest) && Written(out, ofs, done) && |rest| <= |data|
      invariant RequestProgress(ofs, done, maximum, t)
      invariant Others(ofs, {1}) == Others(done, {1}) && AllKept(Messages(done, 1), Messages(ofs, 1), ResourceLogsKept)
      decreases |rest|
    {
      MidwayStep(data, done, rest);
      var f := ReadField(rest);
      if f.None? { return; }
      var field := f.value;
      if field.number == 1 && field.wire == BYTES {
        RecordIsPart(data, done, rest);
        var resourceBad := MessagesExceed(field.value, RESOURCE, RESOURCE_ATTRIBUTES, maximum);
        if resourceBad.None? {
          UnreadableResource(field.value, maximum);
          return;
        }
        ResourceVerdict(field.value, maximum);
        var replacement, next, fine := RewriteResourceLogs(field.value, resourceBad.value, maximum, t);
        if !fine { return; }
        EmittedFits(rest, replacement);
        EmittedRaw(1, replacement);
        ghost var g := Emitted(1, replacement);
        WriteField(out, ofs, done, field, g);
        RequestStep(ofs, done, field, g, maximum, t, next);
        RestStep(ofs, done, field, g, 1, {1}, ResourceLogsKept);
        t := next;
        out := out + (Uvarint(8 * 1 + BYTES) + (Uvarint(|replacement|) + replacement));
        ofs := ofs + [g];
      } else {
        WriteField(out, ofs, done, field, field);
        RequestOther(ofs, done, field, maximum, t);
        RestStep(ofs, done, field, field, 1, {1}, ResourceLogsKept);
        out := out + field.raw;
        ofs := ofs + [field];
      }
      done := done + [field];
      rest := rest[|field.raw|..];
    }
    EndMidway(data, done, out, ofs);
    RequestDone(data, out, done, ofs, maximum, t);
    rejected, accepted, ok := t.rejected, t.accepted, true;
  }

  lemma UnreadableResource(b: bytes, maximum: nat)
    requires MessagesExceed(b, RESOURCE, RESOURCE_ATTRIBUTES, maximum).None?
    ensures !ReadableResourceLogs(b)
  {
    hide MessagesExceed, Fields;
    if ReadableResourceLogs(b) { MessagesExceedAnswers(b, RESOURCE, RESOURCE_ATTRIBUTES, maximum); }
  }

  lemma ResourceVerdict(b: bytes, maximum: nat)
    requires MessagesExceed(b, RESOURCE, RESOURCE_ATTRIBUTES, maximum).Some?
    ensures Fields(b).Some? ==>
              (MessagesExceed(b, RESOURCE, RESOURCE_ATTRIBUTES, maximum).value <==>
                 AnyExceeds(Part1(b, RESOURCE), RESOURCE_ATTRIBUTES, maximum))
  {
    hide MessagesExceed, Fields, AnyExceeds;
    if Fields(b).Some? { MessagesExceedExact(b, RESOURCE, RESOURCE_ATTRIBUTES, maximum); }
  }

  lemma RequestDone(data: bytes, out: bytes, done: seq<Field>, ofs: seq<Field>, maximum: nat, t: Tally)
    requires Fields(data) == Some(done) && Fields(out) == Some(ofs) && RequestProgress(ofs, done, maximum, t)
    ensures Views(out) == Good(Views(data), maximum)
    ensures t.rejected == Indexes(Views(data), 0, maximum, true)
    ensures t.accepted == Indexes(Views(data), 0, maximum, false)
  {
    hide Good, Messages, AllResourceViews, Indexes;
    var r, a := Indexes(Views(data), 0, maximum, true), Indexes(Views(data), 0, maximum, false);
    assert [] + r == r && [] + a == a;
  }

  // ---------------------------------------------------------------- what rejection means

  /** Some attribute in these messages nests beyond the limit. */
  predicate AttributesBeyond(ms: seq<bytes>, field: nat, maximum: nat) {
    exists m :: m in ms && ParseEntries(m, field).Some? && EntriesDepth(ParseEntries(m, field).value) > maximum
  }

  /** A view of a readable request. */
  predicate ReadableView(v: View) {
    && ReadableRecord(v.record)
    && (forall m :: m in v.resource ==> ParseEntries(m, RESOURCE_ATTRIBUTES).Some?)
    && (forall m :: m in v.scope ==> ParseEntries(m, SCOPE_ATTRIBUTES).Some?)
  }

  lemma BeyondExact(ms: seq<bytes>, field: nat, maximum: nat)
    requires forall m :: m in ms ==> ParseEntries(m, field).Some?
    ensures AnyExceeds(ms, field, maximum) <==> AttributesBeyond(ms, field, maximum)
  {
    hide EntriesExceed, ParseEntries, EntriesDepth;
    forall m | m in ms
      ensures EntriesExceed(m, field, 1, maximum) == Some(EntriesDepth(ParseEntries(m, field).value) > maximum)
    {
      EntriesDepthExact(m, field, 1, maximum);
    }
  }

  /** A record is rejected exactly when its own body or attributes, its resource or its scope nests beyond the limit. */
  lemma BadIsTooDeep(v: View, maximum: nat)
    requires ReadableView(v)
    ensures Bad(v, maximum) <==>
              || RecordDepth(v.record) > maximum
              || AttributesBeyond(v.resource, RESOURCE_ATTRIBUTES, maximum)
              || AttributesBeyond(v.scope, SCOPE_ATTRIBUTES, maximum)
  {
    hide AnyExceeds, AttributesBeyond, RecordExceeds;
    RecordDepthExact(v.record, maximum);
    BeyondExact(v.resource, RESOURCE_ATTRIBUTES, maximum);
    BeyondExact(v.scope, SCOPE_ATTRIBUTES, maximum);
  }

  lemma {:induction false} ScopeViewsReadable(logs: seq<bytes>, resource: seq<bytes>)
    requires forall m :: m in logs ==> ReadableScopeLogs(m)
    requires forall m :: m in resource ==> ParseEntries(m, RESOURCE_ATTRIBUTES).Some?
    ensures forall v :: v in AllScopeViews(logs, resource) ==> ReadableView(v)
  {
    hide ReadableRecord, ParseEntries;
    if logs != [] {
      var n := |logs| - 1;
      ScopeViewsReadable(logs[..n], resource);
      assert logs[n] in logs;
    }
  }

  lemma {:induction false} ResourceViewsReadable(logs: seq<bytes>)
    requires forall m :: m in logs ==> ReadableResourceLogs(m)
    ensures forall v :: v in AllResourceViews(logs) ==> ReadableView(v)
  {
    hide ReadableScopeLogs, ReadableView, ParseEntries;
    if logs != [] {
      var n := |logs| - 1;
      ResourceViewsReadable(logs[..n]);
      assert logs[n] in logs;
      ScopeViewsReadable(Part1(logs[n], SCOPE_LOGS), Part1(logs[n], RESOURCE));
    }
  }

  /** Every record of a readable request has an exact verdict. */
  lemma ViewsAreReadable(request: bytes)
    requires ReadableRequest(request)
    ensures forall v :: v in Views(request) ==> ReadableView(v)
  {
    hide ReadableResourceLogs, ReadableView;
    ResourceViewsReadable(Part1(request, 1));
  }
}
