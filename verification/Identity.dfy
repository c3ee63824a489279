/** The canonical encoding behind a derived record identity: uniquely decodable, up to what time stamps can carry. */
module Identity {
  import opened Basics
  import opened Encoding

  // ---------------------------------------------------------------- values

  /** A validated SafeValue: its payload matches its kind. A double is its 64 IEEE bits. */
  datatype SafeValue =
    | Absent
    | Text(text: bytes)
    | Int(number: int)
    | Double(bits: nat)
    | Bool(flag: bool)
    | Structure(entries: map<bytes, SafeValue>)
    | List(items: seq<SafeValue>)
    | Withheld(reason: bytes)

  const INT64_MIN := -0x8000_0000_0000_0000
  const INT64_MAX := 0x7fff_ffff_ffff_ffff

  /** Every length is a Go int and every number has its Go width. */
  ghost predicate Fits(v: SafeValue) {
    match v
    case Absent => true
    case Text(s) => |s| < U64
    case Int(n) => INT64_MIN <= n <= INT64_MAX
    case Double(b) => b < U64
    case Bool(_) => true
    case Structure(m) => FitsMap(m) && forall k :: k in m ==> Fits(m[k])
    case List(s) => |s| < U64 && forall i :: 0 <= i < |s| ==> Fits(s[i])
    case Withheld(s) => |s| < U64
  }

  ghost predicate FitsMap(m: map<bytes, SafeValue>) {
    |m| < U64 && forall k :: k in m ==> |k| < U64
  }

  // ---------------------------------------------------------------- the encoding

  function Length(n: nat): bytes {
    BigEndian(n, 8)
  }

  function Str(s: bytes): bytes {
    Length(|s|) + s
  }

  /** uint64 of any integer: its residue modulo 2^64. */
  function Residue(n: int): (r: nat)
    ensures r < U64
  {
    n % U64
  }

  function Signed(n: int): bytes {
    BigEndian(Residue(n), 8)
  }

  /** `x` comes first among `s`. */
  ghost predicate Least(s: set<bytes>, x: bytes) {
    x in s && forall y :: y in s && y != x ==> Less(x, y)
  }

  lemma LeastOf(s: set<bytes>) returns (x: bytes)
    requires s != {}
    ensures Least(s, x)
    decreases s
  {
    hide Less;
    var a :| a in s;
    if s == {a} {
      x := a;
    } else {
      var least := LeastOf(s - {a});
      LessTotal(a, least);
      if Less(a, least) {
        x := a;
        forall y | y in s && y != a ensures Less(a, y) { if y != least { LessTransitive(a, least, y); } }
      } else {
        x := least;
      }
    }
  }

  lemma LeastExists(s: set<bytes>)
    requires s != {}
    ensures exists x :: Least(s, x)
  {
    var x := LeastOf(s);
  }

  /** A set of strings in byte order. */
  ghost function Listed(s: set<bytes>): seq<bytes>
    decreases s
  {
    if s == {} then []
    else
      LeastExists(s);
      var x :| Least(s, x);
      [x] + Listed(s - {x})
  }

  lemma {:induction false} ListedIsSorted(s: set<bytes>)
    ensures Ascending(Listed(s)) && (forall x :: x in Listed(s) <==> x in s) && |Listed(s)| == |s|
    decreases s
  {
    hide Less;
    if s != {} {
      LeastExists(s);
      var x := Listed(s)[0];
      ListedIsSorted(s - {x});
    }
  }

  const KIND_TEXT: bytes := [115, 116, 114, 105, 110, 103]
  const KIND_INT: bytes := [105, 110, 116]
  const KIND_DOUBLE: bytes := [100, 111, 117, 98, 108, 101]
  const KIND_BOOL: bytes := [98, 111, 111, 108]
  const KIND_MAP: bytes := [109, 97, 112]
  const KIND_SLICE: bytes := [115, 108, 105, 99, 101]
  const KIND_WITHHELD: bytes := [119, 105, 116, 104, 104, 101, 108, 100]

  function Kind(v: SafeValue): bytes {
    match v
    case Absent => []
    case Text(_) => KIND_TEXT
    case Int(_) => KIND_INT
    case Double(_) => KIND_DOUBLE
    case Bool(_) => KIND_BOOL
    case Structure(_) => KIND_MAP
    case List(_) => KIND_SLICE
    case Withheld(_) => KIND_WITHHELD
  }

  /** safeValue. */
  ghost function Encode(v: SafeValue): bytes
    decreases v, 2, 0
  {
    Str(Kind(v)) + Payload(v)
  }

  ghost function Payload(v: SafeValue): bytes
    decreases v, 1, 0
  {
    match v
    case Absent => []
    case Text(s) => Str(s)
    case Int(n) => Signed(n)
    case Double(b) => BigEndian(b, 8)
    case Bool(b) => [if b then 1 else 0]
    case Structure(m) => ListedIsSorted(m.Keys); Length(|m|) + Entries(v, Listed(m.Keys))
    case List(s) => Length(|s|) + Items(s)
    case Withheld(s) => Str(s)
  }

  ghost function Entries(v: SafeValue, keys: seq<bytes>): bytes
    requires v.Structure? && forall k :: k in keys ==> k in v.entries
    decreases v, 0, |keys|
  {
    if keys == [] then [] else Str(keys[0]) + Encode(v.entries[keys[0]]) + Entries(v, keys[1..])
  }

  ghost function Items(s: seq<SafeValue>): bytes
    decreases s, 0, 0
  {
    if s == [] then [] else Encode(s[0]) + Items(s[1..])
  }

  /** safeMap: the payload of a structured value. */
  ghost function EncodeMap(m: map<bytes, SafeValue>): bytes {
    Payload(Structure(m))
  }

  /** stringsAsSet. */
  ghost function EncodeSet(s: set<bytes>): bytes {
    Length(|s|) + Strings(Listed(s))
  }

  function Strings(s: seq<bytes>): bytes {
    if s == [] then [] else Str(s[0]) + Strings(s[1..])
  }

  // ---------------------------------------------------------------- nothing is a prefix of anything else

  lemma FixedSplits(p: bytes, q: bytes, x: bytes, y: bytes)
    requires |p| == |q| && p + x == q + y
    ensures p == q && x == y
  {
    assert p == (p + x)[..|p|] && q == (q + y)[..|q|];
    assert x == (p + x)[|p|..] && y == (q + y)[|q|..];
  }

  lemma EightBytes(a: nat, b: nat)
    requires a < U64 && b < U64 && BigEndian(a, 8) == BigEndian(b, 8)
    ensures a == b
  {
    Pow8();
    BigEndianReadsBack(a, 8);
    BigEndianReadsBack(b, 8);
  }

  lemma LengthSplits(a: nat, b: nat, x: bytes, y: bytes)
    requires a < U64 && b < U64 && Length(a) + x == Length(b) + y
    ensures a == b && x == y
  {
    FixedSplits(Length(a), Length(b), x, y);
    EightBytes(a, b);
  }

  lemma StrSplits(a: bytes, b: bytes, x: bytes, y: bytes)
    requires |a| < U64 && |b| < U64 && Str(a) + x == Str(b) + y
    ensures a == b && x == y
  {
    hide Length;
    assert Str(a) + x == Length(|a|) + (a + x) && Str(b) + y == Length(|b|) + (b + y);
    LengthSplits(|a|, |b|, a + x, b + y);
    FixedSplits(a, b, x, y);
  }

  lemma KindDecides(v: SafeValue, w: SafeValue)
    requires Kind(v) == Kind(w)
    ensures (v.Absent? <==> w.Absent?) && (v.Text? <==> w.Text?) && (v.Int? <==> w.Int?) && (v.Double? <==> w.Double?)
    ensures (v.Bool? <==> w.Bool?) && (v.Structure? <==> w.Structure?) && (v.List? <==> w.List?)
    ensures (v.Withheld? <==> w.Withheld?)
    ensures |Kind(v)| < U64
  {
    assert KIND_TEXT[0] != KIND_DOUBLE[0] && KIND_INT[0] != KIND_MAP[0];
  }

  /** No value's encoding can be mistaken for another's, whatever follows either. */
  lemma {:induction false} EncodingSplits(v: SafeValue, w: SafeValue, x: bytes, y: bytes)
    requires Fits(v) && Fits(w) && Encode(v) + x == Encode(w) + y
    ensures v == w && x == y
    decreases v, 2, 0
  {
    hide Str, Payload, Fits;
    assert Encode(v) + x == Str(Kind(v)) + (Payload(v) + x) && Encode(w) + y == Str(Kind(w)) + (Payload(w) + y);
    StrSplits(Kind(v), Kind(w), Payload(v) + x, Payload(w) + y) by { KindIsShort(v); KindIsShort(w); }
    KindDecides(v, w);
    PayloadSplits(v, w, x, y);
  }

  lemma KindIsShort(v: SafeValue)
    ensures |Kind(v)| < U64
  {
  }

  lemma {:induction false} PayloadSplits(v: SafeValue, w: SafeValue, x: bytes, y: bytes)
    requires Fits(v) && Fits(w) && Kind(v) == Kind(w) && Payload(v) + x == Payload(w) + y
    ensures v == w && x == y
    decreases v, 1, 1
  {
    KindDecides(v, w);
    hide Kind, Fits;
    if v.Structure? {
      MapSplits(v, w, x, y);
    } else if v.List? {
      ListSplits(v, w, x, y);
    } else {
      ScalarSplits(v, w, x, y) by { ScalarFits(v); ScalarFits(w); }
    }
  }

  /** The widths of a value that holds no other. */
  predicate ScalarWidth(v: SafeValue) {
    match v
    case Text(s) => |s| < U64
    case Int(n) => INT64_MIN <= n <= INT64_MAX
    case Double(b) => b < U64
    case Withheld(s) => |s| < U64
    case _ => true
  }

  lemma ScalarFits(v: SafeValue)
    requires Fits(v)
    ensures ScalarWidth(v)
  {
  }

  lemma ScalarSplits(v: SafeValue, w: SafeValue, x: bytes, y: bytes)
    requires ScalarWidth(v) && ScalarWidth(w) && Kind(v) == Kind(w) && !v.Structure? && !v.List?
    requires Payload(v) + x == Payload(w) + y
    ensures v == w && x == y
  {
    KindDecides(v, w);
    hide Kind, Str, Signed, BigEndian, Listed;
    match v
    case Absent => assert [] + x == x && [] + y == y;
    case Text(s) => StrSplits(s, w.text, x, y);
    case Int(n) => SignedSplits(n, w.number, x, y);
    case Double(b) =>
      FixedSplits(BigEndian(b, 8), BigEndian(w.bits, 8), x, y);
      EightBytes(b, w.bits);
    case Bool(b) => FixedSplits([if b then 1 else 0], [if w.flag then 1 else 0], x, y);
    case Withheld(s) => StrSplits(s, w.reason, x, y);
  }

  lemma {:induction false} ListSplits(v: SafeValue, w: SafeValue, x: bytes, y: bytes)
    requires Fits(v) && Fits(w) && v.List? && w.List? && Payload(v) + x == Payload(w) + y
    ensures v == w && x == y
    decreases v, 1, 0
  {
    hide Items, Length;
    var s, t := v.items, w.items;
    assert Payload(v) + x == Length(|s|) + (Items(s) + x) && Payload(w) + y == Length(|t|) + (Items(t) + y);
    LengthSplits(|s|, |t|, Items(s) + x, Items(t) + y);
    ItemsSplit(s, t, x, y);
  }

  lemma SignedSplits(a: int, b: int, x: bytes, y: bytes)
    requires Signed(a) + x == Signed(b) + y
    ensures Residue(a) == Residue(b) && x == y
    ensures INT64_MIN <= a <= INT64_MAX && INT64_MIN <= b <= INT64_MAX ==> a == b
  {
    FixedSplits(Signed(a), Signed(b), x, y);
    EightBytes(Residue(a), Residue(b));
    hide BigEndian, Length;
    if INT64_MIN <= a <= INT64_MAX && INT64_MIN <= b <= INT64_MAX { Congruent(a, b); }
  }

  lemma Congruent(a: int, b: int)
    requires a % U64 == b % U64
    ensures exists k: int :: a == b + k * U64
    ensures INT64_MIN <= a <= INT64_MAX && INT64_MIN <= b <= INT64_MAX ==> a == b
  {
    var k := a / U64 - b / U64;
    assert a == b + k * U64;
  }

  lemma {:induction false} MapSplits(v: SafeValue, w: SafeValue, x: bytes, y: bytes)
    requires Fits(v) && Fits(w) && v.Structure? && w.Structure? && Payload(v) + x == Payload(w) + y
    ensures v == w && x == y
    decreases v, 1, 0
  {
    hide Encode, Entries, Listed, Length, Ascending, Fits, FitsMap, Payload;
    var m, n := v.entries, w.entries;
    StructurePayload(v);
    StructurePayload(w);
    var ks, ls := Listed(m.Keys), Listed(n.Keys);
    assert Payload(v) + x == Length(|m|) + (Entries(v, ks) + x) && Payload(w) + y == Length(|n|) + (Entries(w, ls) + y);
    LengthSplits(|m|, |n|, Entries(v, ks) + x, Entries(w, ls) + y);
    EntriesSplit(v, w, ks, ls, x, y);
    assert m == n;
  }

  lemma StructurePayload(v: SafeValue)
    requires Fits(v) && v.Structure?
    ensures var ks := Listed(v.entries.Keys);
            && (forall k :: k in ks <==> k in v.entries) && |ks| == |v.entries| < U64
            && (forall k :: k in ks ==> |k| < U64 && Fits(v.entries[k]))
            && Payload(v) == Length(|v.entries|) + Entries(v, ks)
  {
    ListedIsSorted(v.entries.Keys);
    hide Encode, Entries, Listed, Length, Ascending;
  }

  lemma {:induction false} EntriesSplit(v: SafeValue, w: SafeValue, ks: seq<bytes>, ls: seq<bytes>, x: bytes, y: bytes)
    requires v.Structure? && w.Structure?
    requires forall k :: k in ks ==> k in v.entries && |k| < U64 && Fits(v.entries[k])
    requires forall k :: k in ls ==> k in w.entries && |k| < U64 && Fits(w.entries[k])
    requires |ks| == |ls| && Entries(v, ks) + x == Entries(w, ls) + y
    ensures ks == ls && x == y && forall k :: k in ks ==> k in w.entries && v.entries[k] == w.entries[k]
    decreases v, 0, |ks|
  {
    hide Encode, Str, Fits;
    if ks == [] {
      assert [] + x == x && [] + y == y;
    } else {
      var k, l := ks[0], ls[0];
      var xs, ys := Entries(v, ks[1..]) + x, Entries(w, ls[1..]) + y;
      assert Entries(v, ks) + x == Str(k) + (Encode(v.entries[k]) + xs);
      assert Entries(w, ls) + y == Str(l) + (Encode(w.entries[l]) + ys);
      StrSplits(k, l, Encode(v.entries[k]) + xs, Encode(w.entries[l]) + ys);
      EntrySmaller(v, k);
      EncodingSplits(v.entries[k], w.entries[l], xs, ys);
      EntriesSplit(v, w, ks[1..], ls[1..], x, y);
      assert ks == [k] + ks[1..] && ls == [l] + ls[1..];
    }
  }

  lemma EntrySmaller(v: SafeValue, k: bytes)
    requires v.Structure? && k in v.entries
    ensures v.entries[k] < v
  {
  }

  lemma {:induction false} ItemsSplit(s: seq<SafeValue>, t: seq<SafeValue>, x: bytes, y: bytes)
    requires (forall i :: 0 <= i < |s| ==> Fits(s[i])) && (forall i :: 0 <= i < |t| ==> Fits(t[i]))
    requires |s| == |t| && Items(s) + x == Items(t) + y
    ensures s == t && x == y
    decreases s, 0, 0
  {
    hide Encode, Fits;
    if s == [] {
      assert [] + x == x && [] + y == y;
    } else {
      var xs, ys := Items(s[1..]) + x, Items(t[1..]) + y;
      assert Items(s) + x == Encode(s[0]) + xs && Items(t) + y == Encode(t[0]) + ys;
      EncodingSplits(s[0], t[0], xs, ys);
      ItemsSplit(s[1..], t[1..], x, y);
      assert s == [s[0]] + s[1..] && t == [t[0]] + t[1..];
    }
  }

  lemma {:induction false} StringsSplit(s: seq<bytes>, t: seq<bytes>, x: bytes, y: bytes)
    requires (forall i :: 0 <= i < |s| ==> |s[i]| < U64) && (forall i :: 0 <= i < |t| ==> |t[i]| < U64)
    requires |s| == |t| && Strings(s) + x == Strings(t) + y
    ensures s == t && x == y
  {
    hide Str;
    if s == [] {
      assert [] + x == x && [] + y == y;
    } else {
      var xs, ys := Strings(s[1..]) + x, Strings(t[1..]) + y;
      assert Strings(s) + x == Str(s[0]) + xs && Strings(t) + y == Str(t[0]) + ys;
      StrSplits(s[0], t[0], xs, ys);
      StringsSplit(s[1..], t[1..], x, y);
      assert s == [s[0]] + s[1..] && t == [t[0]] + t[1..];
    }
  }

  lemma SetSplits(s: set<bytes>, t: set<bytes>, x: bytes, y: bytes)
    requires |s| < U64 && |t| < U64 && (forall v :: v in s ==> |v| < U64) && (forall v :: v in t ==> |v| < U64)
    requires EncodeSet(s) + x == EncodeSet(t) + y
    ensures s == t && x == y
  {
    ListedIsSorted(s);
    ListedIsSorted(t);
    hide Length, Listed, Ascending, Strings;
    var ks, ls := Listed(s), Listed(t);
    assert EncodeSet(s) + x == Length(|s|) + (Strings(ks) + x) && EncodeSet(t) + y == Length(|t|) + (Strings(ls) + y);
    LengthSplits(|s|, |t|, Strings(ks) + x, Strings(ls) + y);
    assert forall i :: 0 <= i < |ks| ==> ks[i] in s;
    assert forall i :: 0 <= i < |ls| ==> ls[i] in t;
    StringsSplit(ks, ls, x, y);
    assert forall v :: v in s <==> v in ks;
  }

  // ---------------------------------------------------------------- records

  /** The fields DerivedV1 selects. Times are nanoseconds since 1970, unbounded as Go times are. */
  datatype Evidence = Evidence(
    sourceType: bytes, sourceAccount: bytes, region: bytes, allowedEnvironments: seq<bytes>, allowedServices: seq<bytes>,
    sourceInstance: bytes, credential: bytes, serviceName: bytes, serviceNamespace: bytes, serviceInstance: bytes,
    environment: bytes, eventTime: int, observedTime: int, severity: int, traceID: bytes, spanID: bytes, body: SafeValue,
    eventName: bytes, attributes: map<bytes, SafeValue>, resource: map<bytes, SafeValue>, scope: map<bytes, SafeValue>)

  datatype Field = FText(text: bytes) | FSet(strings: set<bytes>) | FTime(at: int) | FInt(n: int) | FValue(v: SafeValue) | FMap(m: map<bytes, SafeValue>)

  function Distinct(s: seq<bytes>): set<bytes> {
    set x | x in s
  }

  /** DerivedV1's field order. */
  function Fields(r: Evidence): seq<Field> {
    [FText(r.sourceType), FText(r.sourceAccount), FText(r.region), FSet(Distinct(r.allowedEnvironments)),
     FSet(Distinct(r.allowedServices)),
     FText(r.sourceInstance), FText(r.credential), FText(r.serviceName), FText(r.serviceNamespace), FText(r.serviceInstance),
     FText(r.environment), FTime(r.eventTime), FTime(r.observedTime), FInt(r.severity), FText(r.traceID), FText(r.spanID),
     FValue(r.body), FText(r.eventName), FMap(r.attributes), FMap(r.resource), FMap(r.scope)]
  }

  ghost predicate FieldFits(f: Field) {
    match f
    case FText(s) => |s| < U64
    case FSet(s) => |s| < U64 && forall v :: v in s ==> |v| < U64
    case FTime(_) => true
    case FInt(n) => INT64_MIN <= n <= INT64_MAX
    case FValue(v) => Fits(v)
    case FMap(m) => Fits(Structure(m))
  }

  ghost function EncodeField(f: Field): bytes {
    match f
    case FText(s) => Str(s)
    case FSet(s) => EncodeSet(s)
    case FTime(t) => Signed(t)
    case FInt(n) => Signed(n)
    case FValue(v) => Encode(v)
    case FMap(m) => EncodeMap(m)
  }

  ghost function EncodeFields(fs: seq<Field>): bytes {
    if fs == [] then [] else EncodeField(fs[0]) + EncodeFields(fs[1..])
  }

  const VERSION: bytes := [100, 101, 114, 105, 118, 101, 100, 58, 118, 49]

  /** The bytes DerivedV1 hashes. */
  ghost function Canonical(r: Evidence): bytes {
    VERSION + EncodeFields(Fields(r))
  }

  predicate SameShape(f: Field, g: Field) {
    (f.FText? && g.FText?) || (f.FSet? && g.FSet?) || (f.FTime? && g.FTime?) || (f.FInt? && g.FInt?) || (f.FValue? && g.FValue?) || (f.FMap? && g.FMap?)
  }

  /** Equal, except that times are compared modulo the 2^64 nanoseconds their encoding carries. */
  predicate SameField(f: Field, g: Field) {
    if f.FTime? && g.FTime? then Residue(f.at) == Residue(g.at) else f == g
  }

  lemma MapFieldSplits(m: map<bytes, SafeValue>, n: map<bytes, SafeValue>, x: bytes, y: bytes)
    requires Fits(Structure(m)) && Fits(Structure(n)) && EncodeMap(m) + x == EncodeMap(n) + y
    ensures m == n && x == y
  {
    hide Payload, Fits;
    MapSplits(Structure(m), Structure(n), x, y);
  }

  lemma FieldSplits(f: Field, g: Field, x: bytes, y: bytes)
    requires FieldFits(f) && FieldFits(g) && SameShape(f, g) && EncodeField(f) + x == EncodeField(g) + y
    ensures SameField(f, g) && x == y
  {
    hide Str, EncodeSet, EncodeMap, Encode, Signed, Fits, FitsMap;
    match f
    case FText(s) => StrSplits(s, g.text, x, y);
    case FSet(s) => SetSplits(s, g.strings, x, y);
    case FTime(t) => SignedSplits(t, g.at, x, y);
    case FInt(n) => SignedSplits(n, g.n, x, y);
    case FValue(v) => EncodingSplits(v, g.v, x, y);
    case FMap(m) => MapFieldSplits(m, g.m, x, y);
  }

  lemma {:induction false} FieldsSplit(fs: seq<Field>, gs: seq<Field>)
    requires |fs| == |gs| && forall i :: 0 <= i < |fs| ==>
                               FieldFits(fs[i]) && FieldFits(gs[i]) && SameShape(fs[i], gs[i])
    requires EncodeFields(fs) == EncodeFields(gs)
    ensures forall i :: 0 <= i < |fs| ==> SameField(fs[i], gs[i])
  {
    hide EncodeField, FieldFits, SameShape, SameField;
    if fs != [] {
      FieldSplits(fs[0], gs[0], EncodeFields(fs[1..]), EncodeFields(gs[1..]));
      FieldsSplit(fs[1..], gs[1..]);
      forall i | 0 <= i < |fs| ensures SameField(fs[i], gs[i]) {
        if i > 0 { assert SameField(fs[1..][i - 1], gs[1..][i - 1]); }
      }
    }
  }

  lemma {:induction false} SameFieldsEncodeAlike(fs: seq<Field>, gs: seq<Field>)
    requires |fs| == |gs| && forall i :: 0 <= i < |fs| ==> SameField(fs[i], gs[i])
    ensures EncodeFields(fs) == EncodeFields(gs)
  {
    if fs != [] {
      SameFieldsEncodeAlike(fs[1..], gs[1..]);
      assert SameField(fs[0], gs[0]);
    }
  }

  /** The selected fields agree: allowed lists as sets, times modulo 2^64 nanoseconds, everything else exactly. */
  predicate SameEvidence(a: Evidence, b: Evidence) {
    && a.sourceType == b.sourceType && a.sourceAccount == b.sourceAccount && a.region == b.region
    && Distinct(a.allowedEnvironments) == Distinct(b.allowedEnvironments)
    && Distinct(a.allowedServices) == Distinct(b.allowedServices)
    && a.sourceInstance == b.sourceInstance && a.credential == b.credential
    && a.serviceName == b.serviceName && a.serviceNamespace == b.serviceNamespace
    && a.serviceInstance == b.serviceInstance
    && a.environment == b.environment
    && Residue(a.eventTime) == Residue(b.eventTime) && Residue(a.observedTime) == Residue(b.observedTime)
    && a.severity == b.severity && a.traceID == b.traceID && a.spanID == b.spanID && a.body == b.body
    && a.eventName == b.eventName
    && a.attributes == b.attributes && a.resource == b.resource && a.scope == b.scope
  }

  ghost predicate RecordFits(r: Evidence) {
    forall i :: 0 <= i < |Fields(r)| ==> FieldFits(Fields(r)[i])
  }

  lemma FieldShapes(a: Evidence, b: Evidence)
    ensures |Fields(a)| == |Fields(b)| == 21 && forall i :: 0 <= i < 21 ==> SameShape(Fields(a)[i], Fields(b)[i])
  {
    hide Distinct;
  }

  lemma EvidenceToFields(a: Evidence, b: Evidence)
    requires SameEvidence(a, b)
    ensures forall i :: 0 <= i < |Fields(a)| ==> SameField(Fields(a)[i], Fields(b)[i])
  {
    hide Distinct, Residue, SameShape;
  }

  lemma FieldsToEvidence(a: Evidence, b: Evidence)
    requires forall i :: 0 <= i < |Fields(a)| ==> SameField(Fields(a)[i], Fields(b)[i])
    ensures SameEvidence(a, b)
  {
    hide Distinct, Residue, SameShape;
    forall i: nat | i < 21 ensures SameField(Fields(a)[i], Fields(b)[i]) { }
    FieldAt(a, b);
  }

  lemma FieldAt(a: Evidence, b: Evidence)
    requires forall i: nat :: i < 21 ==> SameField(Fields(a)[i], Fields(b)[i])
    ensures SameEvidence(a, b)
  {
    hide Distinct, Residue, SameShape;
    var f, g := Fields(a), Fields(b);
    assert SameField(f[0], g[0]) && SameField(f[1], g[1]) && SameField(f[2], g[2]) && SameField(f[3], g[3]);
    assert SameField(f[4], g[4]);
    assert SameField(f[5], g[5]) && SameField(f[6], g[6]) && SameField(f[7], g[7]) && SameField(f[8], g[8]);
    assert SameField(f[9], g[9]);
    assert SameField(f[10], g[10]) && SameField(f[11], g[11]) && SameField(f[12], g[12]) && SameField(f[13], g[13]);
    assert SameField(f[14], g[14]);
    assert SameField(f[15], g[15]) && SameField(f[16], g[16]) && SameField(f[17], g[17]) && SameField(f[18], g[18]);
    assert SameField(f[19], g[19]);
    assert SameField(f[20], g[20]);
  }

  lemma SameEvidenceByField(a: Evidence, b: Evidence)
    ensures |Fields(a)| == |Fields(b)| == 21 && forall i :: 0 <= i < 21 ==> SameShape(Fields(a)[i], Fields(b)[i])
    ensures SameEvidence(a, b) <==> forall i :: 0 <= i < |Fields(a)| ==> SameField(Fields(a)[i], Fields(b)[i])
  {
    hide Fields, SameField, SameShape, SameEvidence;
    FieldShapes(a, b);
    if SameEvidence(a, b) { EvidenceToFields(a, b); }
    if forall i :: 0 <= i < |Fields(a)| ==> SameField(Fields(a)[i], Fields(b)[i]) { FieldsToEvidence(a, b); }
  }

  /** Two records hash the same bytes exactly when their selected fields agree, at any nesting depth and map order. */
  lemma CanonicalIsEvidence(a: Evidence, b: Evidence)
    requires RecordFits(a) && RecordFits(b)
    ensures Canonical(a) == Canonical(b) <==> SameEvidence(a, b)
  {
    hide EncodeFields, Fields, SameField, SameShape, FieldFits, SameEvidence;
    SameEvidenceByField(a, b);
    if Canonical(a) == Canonical(b) {
      FixedSplits(VERSION, VERSION, EncodeFields(Fields(a)), EncodeFields(Fields(b)));
      FieldsSplit(Fields(a), Fields(b));
    }
    if SameEvidence(a, b) { SameFieldsEncodeAlike(Fields(a), Fields(b)); }
  }

  predicate Representable(t: int) {
    INT64_MIN <= t <= INT64_MAX
  }

  /** Within the range of 64-bit nanoseconds the comparison of times is exact. */
  lemma RepresentableTimesAreExact(s: int, t: int)
    requires Representable(s) && Representable(t)
    ensures Residue(s) == Residue(t) <==> s == t
  {
    if Residue(s) == Residue(t) { Congruent(s, t); }
  }

  /** The representable time an arbitrary time is taken for. */
  function Wrapped(t: int): int {
    Residue(t - INT64_MIN) + INT64_MIN
  }

  /**
   * Every time is hashed as exactly one representable time, which is the time itself exactly when that is
   * representable.
   */
  lemma WrappedIsTheOnlyMatch(s: int, t: int)
    ensures Representable(Wrapped(t)) && Residue(Wrapped(t)) == Residue(t)
    ensures Representable(s) && Residue(s) == Residue(t) ==> s == Wrapped(t)
    ensures Wrapped(t) == t <==> Representable(t)
  {
    WrappedShares(t);
    if Representable(s) && Residue(s) == Residue(t) { Congruent(s, Wrapped(t)); }
    if Representable(t) { Congruent(t, Wrapped(t)); }
  }

  lemma WrappedShares(t: int)
    ensures Representable(Wrapped(t)) && Residue(Wrapped(t)) == Residue(t)
  {
    var q := (t - INT64_MIN) / U64;
    assert Wrapped(t) == t - q * U64;
    assert (t - q * U64) % U64 == t % U64;
  }

  /**
   * So two records differing in their event time alone hash apart, whatever representable time it is, exactly if it is
   * one.
   */
  lemma EventTimeIsExact(r: Evidence, t: int)
    requires RecordFits(r)
    ensures Representable(t) <==>
              forall s :: Representable(s) && s != t ==> Canonical(r.(eventTime := s)) != Canonical(r.(eventTime := t))
  {
    hide EncodeFields, Fields, SameEvidence, RecordFits, Residue, Canonical;
    forall s | Representable(s)
      ensures Canonical(r.(eventTime := s)) == Canonical(r.(eventTime := t)) <==> s == Wrapped(t)
    {
      WrappedIsTheOnlyMatch(s, t);
      TimeDecides(r, s, t);
    }
    WrappedIsTheOnlyMatch(t, t);
  }

  lemma TimeAlwaysFits(r: Evidence, t: int)
    requires RecordFits(r)
    ensures RecordFits(r.(eventTime := t))
  {
    hide FieldFits, Distinct;
    var f, g := Fields(r), Fields(r.(eventTime := t));
    TimeFits(t);
    forall i | 0 <= i < |g| ensures FieldFits(g[i]) {
      if i != 11 { assert g[i] == f[i]; }
    }
  }

  lemma TimeFits(t: int)
    ensures FieldFits(FTime(t))
  {
  }

  lemma TimeDecides(r: Evidence, s: int, t: int)
    requires RecordFits(r)
    ensures Canonical(r.(eventTime := s)) == Canonical(r.(eventTime := t)) <==> Residue(s) == Residue(t)
  {
    hide EncodeFields, Fields, Canonical, RecordFits;
    TimeAlwaysFits(r, s);
    TimeAlwaysFits(r, t);
    CanonicalIsEvidence(r.(eventTime := s), r.(eventTime := t));
  }

  const ZERO_TIME := -62_135_596_800_000_000_000

  /** Beyond it, it is not: a record without an event time and one from 30 August 1754 hash the same bytes. */
  lemma MissingTimeCollides(r: Evidence)
    ensures var missing, ancient := r.(eventTime := ZERO_TIME), r.(eventTime := -6_795_364_578_871_345_152);
            missing != ancient && Representable(ancient.eventTime) && !Representable(ZERO_TIME) &&
            Canonical(missing) == Canonical(ancient)
  {
    var missing, ancient := r.(eventTime := ZERO_TIME), r.(eventTime := -6_795_364_578_871_345_152);
    assert SameEvidence(missing, ancient);
    hide EncodeFields, Fields, SameField, SameShape;
    SameEvidenceByField(missing, ancient);
    SameFieldsEncodeAlike(Fields(missing), Fields(ancient));
  }
}
