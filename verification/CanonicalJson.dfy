/**
 * canonicalJson. Its text is one that a JSON reader reads back: the same value, objects
 * unordered, with a member called __proto__, which the copying of an object loses, left
 * out and a number that is not finite made null; and in the text the keys of every object
 * ascend. Two inputs print alike exactly when they are the same value in that sense.
 */
module CanonicalJson {
  import opened CodeUnits
  import opened Prelude
  import opened Sorting
  import opened JsonText

  // ---------------------------------------------------------------------------
  // What the copy and the printer keep of a value
  // ---------------------------------------------------------------------------

  /** Assigning to this key of an object sets its prototype, and adds no member. */
  const PROTO: Text := Literal("__proto__")

  /** What is left once members of that name are gone and non-finite numbers null, at every depth. */
  function Shown(v: Json): Value {
    match v
    case NonFinite(_) => VNull
    case Arr(items) => VArr(ShownItems(items))
    case Obj(fs) => VObj(ShownFields(fs))
    case _ => Meaning(v)
  }

  function ShownItems(items: seq<Json>): seq<Value> {
    if items == [] then [] else [Shown(items[0])] + ShownItems(items[1..])
  }

  function ShownFields(fs: seq<Field>): map<Text, Value> {
    if fs == [] then map[]
    else if fs[0].key == PROTO then ShownFields(fs[1..])
    else ShownFields(fs[1..])[fs[0].key := Shown(fs[0].value)]
  }

  /** No member is called __proto__ and no number is non-finite, at any depth. */
  predicate Lossless(v: Json) {
    match v
    case NonFinite(_) => false
    case Arr(items) => LosslessItems(items)
    case Obj(fs) => LosslessFields(fs)
    case _ => true
  }

  predicate LosslessItems(items: seq<Json>) {
    items == [] || (Lossless(items[0]) && LosslessItems(items[1..]))
  }

  predicate LosslessFields(fs: seq<Field>) {
    fs == [] || (fs[0].key != PROTO && Lossless(fs[0].value) && LosslessFields(fs[1..]))
  }

  /** Then nothing is lost. */
  lemma {:induction false} ShownIsMeaning(v: Json)
    requires Lossless(v)
    ensures Shown(v) == Meaning(v)
  {
    match v
    case Arr(items) => ShownItemsIsMeaning(items);
    case Obj(fs) => ShownFieldsIsMeaning(fs);
    case _ =>
  }

  lemma {:induction false} ShownItemsIsMeaning(items: seq<Json>)
    requires LosslessItems(items)
    ensures ShownItems(items) == MeaningItems(items)
  {
    if items != [] {
      ShownIsMeaning(items[0]);
      hide Lossless, Shown, Meaning;
      ShownItemsIsMeaning(items[1..]);
    }
  }

  lemma {:induction false} ShownFieldsIsMeaning(fs: seq<Field>)
    requires LosslessFields(fs)
    ensures ShownFields(fs) == MeaningFields(fs)
  {
    if fs != [] {
      ShownIsMeaning(fs[0].value);
      hide Lossless, Shown, Meaning;
      ShownFieldsIsMeaning(fs[1..]);
    }
  }

  // ---------------------------------------------------------------------------
  // Key sorting
  // ---------------------------------------------------------------------------

  const MAX_INDEX: Text := Literal("4294967294")

  /** A canonical decimal below 2^32 - 1: the keys an object enumerates first, as numbers. */
  predicate ArrayIndex(k: Text) {
    && k != [] && (k[0] != ZERO || |k| == 1)
    && (forall i | 0 <= i < |k| :: ZERO <= k[i] <= NINE)
    && (|k| < 10 || (|k| == 10 && AtMost(k, MAX_INDEX)))
  }

  /** Orders keys as the sorted copy enumerates them: indices by length and then by digits. */
  function Rank(k: Text): Text {
    if ArrayIndex(k) then [0, |k|] + k else [1] + k
  }

  lemma RankInjective(j: Text, k: Text)
    requires Rank(j) == Rank(k)
    ensures j == k
  {
    hide ArrayIndex;
    assert Rank(j)[0] == Rank(k)[0];
    if ArrayIndex(j) {
      assert Rank(j)[2..] == j && Rank(k)[2..] == k;
    } else {
      assert Rank(j)[1..] == j && Rank(k)[1..] == k;
    }
  }

  function KeyOf(f: Field): Text { Rank(f.key) }

  function Normalize(v: Json): Json {
    match v
    case Arr(items) => Arr(NormalizeItems(items))
    case Obj(fs) => Obj(Sort(NormalizeFields(fs), KeyOf))
    case _ => v
  }

  function NormalizeItems(items: seq<Json>): (r: seq<Json>)
    ensures |r| == |items|
  {
    if items == [] then [] else [Normalize(items[0])] + NormalizeItems(items[1..])
  }

  /** sorted[key] = ... makes a member of every key but __proto__. */
  function NormalizeFields(fs: seq<Field>): (r: seq<Field>)
    ensures |r| <= |fs|
  {
    if fs == [] then []
    else if fs[0].key == PROTO then NormalizeFields(fs[1..])
    else [Field(fs[0].key, Normalize(fs[0].value))] + NormalizeFields(fs[1..])
  }

  function CanonicalJson(v: Json): Text {
    Print(Normalize(v))
  }

  lemma {:induction false} NulledShowsSame(v: Json)
    ensures Shown(Nulled(v)) == Shown(v)
  {
    match v
    case Arr(items) => NulledItemsShowSame(items);
    case Obj(fs) => NulledFieldsShowSame(fs);
    case _ =>
  }

  lemma {:induction false} NulledItemsShowSame(items: seq<Json>)
    ensures ShownItems(NulledItems(items)) == ShownItems(items)
  {
    if items != [] {
      NulledShowsSame(items[0]);
      hide Nulled, Shown;
      NulledItemsShowSame(items[1..]);
    }
  }

  lemma {:induction false} NulledFieldsShowSame(fs: seq<Field>)
    ensures ShownFields(NulledFields(fs)) == ShownFields(fs)
  {
    if fs != [] {
      NulledShowsSame(fs[0].value);
      hide Nulled, Shown;
      NulledFieldsShowSame(fs[1..]);
    }
  }

  // ---------------------------------------------------------------------------
  // Sorting keys changes nothing but the order
  // ---------------------------------------------------------------------------

  lemma {:induction false} InsertField(f: Field, fs: seq<Field>)
    requires WellFormedFields(fs) && WellFormed(f.value) && f.key !in KeySet(fs)
    ensures var r := Insert(f, fs, KeyOf);
      && WellFormedFields(r)
      && KeySet(r) == KeySet(fs) + {f.key}
      && ShownFields(r) == ShownFields([f] + fs)
  {
    hide WellFormed, Shown, Rank;
    var r := Insert(f, fs, KeyOf);
    assert ([f] + fs)[1..] == fs;
    if fs == [] || AtMost(KeyOf(f), KeyOf(fs[0])) {
      assert r[0] == f && r[1..] == fs;
    } else {
      InsertField(f, fs[1..]);
      assert ([f] + fs[1..])[1..] == fs[1..];
      assert r[0] == fs[0] && r[1..] == Insert(f, fs[1..], KeyOf);
    }
  }

  lemma {:induction false} SortFields(fs: seq<Field>)
    requires WellFormedFields(fs)
    ensures var r := Sort(fs, KeyOf);
      WellFormedFields(r) && KeySet(r) == KeySet(fs) && ShownFields(r) == ShownFields(fs)
  {
    hide WellFormed, Shown;
    if fs != [] {
      SortFields(fs[1..]);
      InsertField(fs[0], Sort(fs[1..], KeyOf));
    }
  }

  lemma {:induction false} NormalizeKeepsShown(v: Json)
    requires WellFormed(v)
    ensures WellFormed(Normalize(v)) && Shown(Normalize(v)) == Shown(v)
  {
    match v
    case Arr(items) => NormalizeItemsKeepsShown(items);
    case Obj(fs) =>
      NormalizeFieldsKeepsShown(fs);
      SortFields(NormalizeFields(fs));
    case _ =>
  }

  lemma {:induction false} NormalizeItemsKeepsShown(items: seq<Json>)
    requires WellFormedItems(items)
    ensures WellFormedItems(NormalizeItems(items)) && ShownItems(NormalizeItems(items)) == ShownItems(items)
  {
    if items != [] {
      NormalizeKeepsShown(items[0]);
      hide WellFormed, Shown, Normalize;
      NormalizeItemsKeepsShown(items[1..]);
    }
  }

  lemma {:induction false} NormalizeFieldsKeepsShown(fs: seq<Field>)
    requires WellFormedFields(fs)
    ensures var r := NormalizeFields(fs);
      WellFormedFields(r) && KeySet(r) == KeySet(fs) - {PROTO} && ShownFields(r) == ShownFields(fs)
  {
    if fs != [] {
      NormalizeKeepsShown(fs[0].value);
      hide WellFormed, Shown, Normalize;
      NormalizeFieldsKeepsShown(fs[1..]);
    }
  }

  // ---------------------------------------------------------------------------
  // Equal values print alike
  // ---------------------------------------------------------------------------

  function Ranks(fs: seq<Field>): (ks: seq<Text>)
    ensures |ks| == |fs|
    ensures forall i | 0 <= i < |fs| :: ks[i] == Rank(fs[i].key)
  {
    if fs == [] then [] else [Rank(fs[0].key)] + Ranks(fs[1..])
  }

  lemma {:induction false} RanksOfKeys(fs: seq<Field>, k: Text)
    ensures Rank(k) in Ranks(fs) <==> k in KeySet(fs)
  {
    hide Rank;
    if fs != [] {
      RanksOfKeys(fs[1..], k);
      if Rank(k) == Rank(fs[0].key) {
        RankInjective(k, fs[0].key);
      }
    }
  }

  lemma {:induction false} SortedFieldsStrict(fs: seq<Field>)
    requires SortedBy(fs, KeyOf) && WellFormedFields(fs)
    ensures StrictlySorted(Ranks(fs))
  {
    hide Rank, Less, WellFormed;
    if fs != [] {
      SortedFieldsStrict(fs[1..]);
      assert Ranks(fs)[1..] == Ranks(fs[1..]);
      if |fs| > 1 {
        LessTrichotomy(Rank(fs[0].key), Rank(fs[1].key));
        assert fs[1].key in KeySet(fs[1..]);
        if Rank(fs[0].key) == Rank(fs[1].key) {
          RankInjective(fs[0].key, fs[1].key);
        }
      }
    }
  }

  /** The value a field list gives a key. */
  lemma {:induction false} FieldShown(fs: seq<Field>, i: nat)
    requires WellFormedFields(fs) && i < |fs| && fs[i].key != PROTO
    ensures fs[i].key in ShownFields(fs) && ShownFields(fs)[fs[i].key] == Shown(fs[i].value)
    ensures WellFormed(fs[i].value) && fs[i].key in KeySet(fs)
  {
    hide Shown, WellFormed;
    if i > 0 {
      FieldShown(fs[1..], i - 1);
    }
  }

  lemma {:induction false} ShownKeys(fs: seq<Field>)
    ensures ShownFields(fs).Keys == KeySet(fs) - {PROTO}
  {
    hide Shown;
    if fs != [] {
      ShownKeys(fs[1..]);
    }
  }

  /** A normalized field comes from a field of the object. */
  lemma {:induction false} NormalizedFieldOrigin(fs: seq<Field>, f: Field) returns (j: nat)
    requires f in NormalizeFields(fs)
    ensures j < |fs| && fs[j].key != PROTO && f == Field(fs[j].key, Normalize(fs[j].value))
  {
    hide Normalize;
    if fs[0].key != PROTO && f == Field(fs[0].key, Normalize(fs[0].value)) {
      j := 0;
    } else {
      var i := NormalizedFieldOrigin(fs[1..], f);
      j := i + 1;
    }
  }

  /** And so does a sorted one. */
  lemma {:induction false} SortedFieldOrigin(fs: seq<Field>, i: nat) returns (j: nat)
    requires i < |Sort(NormalizeFields(fs), KeyOf)|
    ensures j < |fs| && fs[j].key != PROTO
    ensures Sort(NormalizeFields(fs), KeyOf)[i] == Field(fs[j].key, Normalize(fs[j].value))
  {
    hide Sort, Normalize, NormalizeFields;
    var nf := NormalizeFields(fs);
    var f := Sort(nf, KeyOf)[i];
    SortMembers(nf, KeyOf);
    assert f in nf;
    j := NormalizedFieldOrigin(fs, f);
  }

  lemma {:induction false} PrintFieldsAgree(a: seq<Field>, b: seq<Field>)
    requires |a| == |b|
    requires forall i | 0 <= i < |a| :: a[i].key == b[i].key && Print(a[i].value) == Print(b[i].value)
    ensures PrintFields(a) == PrintFields(b)
  {
    hide Print, Quote;
    if a != [] {
      PrintFieldsAgree(a[1..], b[1..]);
    }
  }

  lemma {:induction false} SortedStrictly(fs: seq<Field>)
    requires WellFormedFields(fs)
    ensures var r := Sort(NormalizeFields(fs), KeyOf);
      StrictlySorted(Ranks(r)) && forall k :: Rank(k) in Ranks(r) <==> k in ShownFields(fs)
  {
    hide Sort, NormalizeFields, WellFormedFields, Less, AtMost, Rank, ShownFields, Ranks, StrictlySorted;
    NormalizeFieldsKeepsShown(fs);
    SortFields(NormalizeFields(fs));
    SortFacts(NormalizeFields(fs), KeyOf);
    var r := Sort(NormalizeFields(fs), KeyOf);
    SortedFieldsStrict(r);
    ShownKeys(fs);
    forall k ensures Rank(k) in Ranks(r) <==> k in ShownFields(fs) {
      RanksOfKeys(r, k);
    }
  }

  lemma {:induction false} SameKeys(a: seq<Field>, b: seq<Field>)
    requires WellFormedFields(a) && WellFormedFields(b) && ShownFields(a) == ShownFields(b)
    ensures var ra, rb := Sort(NormalizeFields(a), KeyOf), Sort(NormalizeFields(b), KeyOf);
      |ra| == |rb| && forall i | 0 <= i < |ra| :: ra[i].key == rb[i].key
  {
    hide Sort, NormalizeFields, WellFormedFields, Rank, ShownFields, StrictlySorted;
    var ra, rb := Sort(NormalizeFields(a), KeyOf), Sort(NormalizeFields(b), KeyOf);
    SortedStrictly(a);
    SortedStrictly(b);
    forall x ensures x in Ranks(ra) <==> x in Ranks(rb) {
      if x in Ranks(ra) {
        var i :| 0 <= i < |ra| && Ranks(ra)[i] == x;
        assert Rank(ra[i].key) in Ranks(ra);
      }
      if x in Ranks(rb) {
        var i :| 0 <= i < |rb| && Ranks(rb)[i] == x;
        assert Rank(rb[i].key) in Ranks(rb);
      }
    }
    StrictlySortedUnique(Ranks(ra), Ranks(rb));
    forall i | 0 <= i < |ra| ensures ra[i].key == rb[i].key {
      assert Ranks(ra)[i] == Ranks(rb)[i];
      RankInjective(ra[i].key, rb[i].key);
    }
  }

  lemma {:induction false} EqualPrintsAlike(u: Json, v: Json)
    requires WellFormed(u) && WellFormed(v) && Shown(u) == Shown(v)
    ensures CanonicalJson(u) == CanonicalJson(v)
    decreases u, 1
  {
    match u
    case Arr(items) => EqualItemsPrintAlike(items, v.items);
    case Obj(fs) => EqualFieldsPrintAlike(fs, v.fields);
    case _ =>
  }

  lemma {:induction false} EqualItemsPrintAlike(a: seq<Json>, b: seq<Json>)
    requires WellFormedItems(a) && WellFormedItems(b) && ShownItems(a) == ShownItems(b)
    ensures PrintItems(NormalizeItems(a)) == PrintItems(NormalizeItems(b))
    decreases a, 0
  {
    if a != [] && b != [] {
      var ma, mb := ShownItems(a), ShownItems(b);
      assert ma[0] == Shown(a[0]) && ma[1..] == ShownItems(a[1..]);
      assert mb[0] == Shown(b[0]) && mb[1..] == ShownItems(b[1..]);
      hide Print, Shown, Normalize, WellFormed;
      EqualPrintsAlike(a[0], b[0]);
      EqualItemsPrintAlike(a[1..], b[1..]);
    }
  }

  lemma {:induction false} EqualFieldsPrintAlike(a: seq<Field>, b: seq<Field>)
    requires WellFormedFields(a) && WellFormedFields(b) && ShownFields(a) == ShownFields(b)
    ensures PrintFields(Sort(NormalizeFields(a), KeyOf)) == PrintFields(Sort(NormalizeFields(b), KeyOf))
    decreases a, 0
  {
    hide Sort, Normalize, NormalizeFields, Print, PrintFields, Shown, ShownFields, WellFormed, WellFormedFields, Rank;
    var ra, rb := Sort(NormalizeFields(a), KeyOf), Sort(NormalizeFields(b), KeyOf);
    SameKeys(a, b);
    forall i | 0 <= i < |ra| ensures ra[i].key == rb[i].key && Print(ra[i].value) == Print(rb[i].value) {
      var j := SortedFieldOrigin(a, i);
      var k := SortedFieldOrigin(b, i);
      FieldShown(a, j);
      FieldShown(b, k);
      EqualPrintsAlike(a[j].value, b[k].value);
    }
    PrintFieldsAgree(ra, rb);
  }

  /** Canonical printing tells values apart exactly as far as the copy and the printer keep them. */
  lemma {:induction false} CanonicalJsonShowsExactly(u: Json, v: Json)
    requires WellFormed(u) && WellFormed(v)
    ensures CanonicalJson(u) == CanonicalJson(v) <==> Shown(u) == Shown(v)
  {
    hide Print, Normalize, Nulled, Shown, WellFormed;
    if CanonicalJson(u) == CanonicalJson(v) {
      NormalizeKeepsShown(u);
      NormalizeKeepsShown(v);
      PrintDelimited(Normalize(u), Normalize(v), [], []);
      NulledShowsSame(Normalize(u));
      NulledShowsSame(Normalize(v));
    }
    if Shown(u) == Shown(v) {
      EqualPrintsAlike(u, v);
    }
  }

  /**
   * So, where no member is called __proto__ and no number overflows, canonical printing
   * is injective up to key order, and insensitive to it.
   */
  lemma {:induction false} CanonicalJsonIsCanonical(u: Json, v: Json)
    requires WellFormed(u) && WellFormed(v) && Lossless(u) && Lossless(v)
    ensures CanonicalJson(u) == CanonicalJson(v) <==> Meaning(u) == Meaning(v)
  {
    hide CanonicalJson, Meaning, Shown, WellFormed, Lossless;
    CanonicalJsonShowsExactly(u, v);
    ShownIsMeaning(u);
    ShownIsMeaning(v);
  }

  /** And a member of that name can be added to any object that has none, unseen. */
  lemma {:induction false} ProtoIsUnseen(fs: seq<Field>, x: Json)
    requires WellFormedFields(fs) && PROTO !in KeySet(fs)
    ensures var gs := [Field(PROTO, x)] + fs;
      CanonicalJson(Obj(gs)) == CanonicalJson(Obj(fs)) && Meaning(Obj(gs)) != Meaning(Obj(fs))
  {
    hide Normalize, Meaning, WellFormed, Print, Sort;
    var gs := [Field(PROTO, x)] + fs;
    assert gs[1..] == fs;
    assert NormalizeFields(gs) == NormalizeFields(fs);
    NormalizeObj(gs);
    NormalizeObj(fs);
    hide NormalizeFields;
    DomainIsKeySet(fs);
    ObjMeaning(fs);
    ObjMeaning(gs);
    assert PROTO in MeaningFields(gs) && PROTO !in MeaningFields(fs);
  }

  /** A null can be made a number that overflows, unseen. */
  lemma {:induction false} OverflowIsUnseen(fs: seq<Field>, key: Text, name: Text)
    requires WellFormed(Obj([Field(key, Null)] + fs)) && key != PROTO
    ensures var before, after := [Field(key, Null)] + fs, [Field(key, NonFinite(name))] + fs;
      && WellFormed(Obj(after)) && Shown(Obj(after)) == Shown(Obj(before))
      && CanonicalJson(Obj(after)) == CanonicalJson(Obj(before)) && Meaning(Obj(after)) != Meaning(Obj(before))
  {
    var before, after := [Field(key, Null)] + fs, [Field(key, NonFinite(name))] + fs;
    assert before[1..] == fs && after[1..] == fs;
    assert MeaningFields(before)[key] != MeaningFields(after)[key];
    ObjShown(before);
    ObjShown(after);
    assert WellFormedFields(before) && WellFormedFields(fs);
    assert WellFormed(after[0].value) && WellFormedFields(after);
    assert WellFormed(Obj(after));
    hide CanonicalJson, WellFormed, Shown;
    CanonicalJsonShowsExactly(Obj(before), Obj(after));
  }

  lemma NormalizeObj(fs: seq<Field>)
    ensures Normalize(Obj(fs)) == Obj(Sort(NormalizeFields(fs), KeyOf))
  {
  }

  lemma {:induction false} DomainIsKeySet(fs: seq<Field>)
    ensures MeaningFields(fs).Keys == KeySet(fs)
  {
    hide Meaning;
    if fs != [] {
      DomainIsKeySet(fs[1..]);
    }
  }

  lemma ObjMeaning(fs: seq<Field>)
    ensures Meaning(Obj(fs)) == VObj(MeaningFields(fs))
  {
  }

  lemma ObjShown(fs: seq<Field>)
    ensures Shown(Obj(fs)) == VObj(ShownFields(fs))
  {
  }

  // ---------------------------------------------------------------------------
  // The order of the keys
  // ---------------------------------------------------------------------------

  /** An array index: the decimal numeral of an integer below 2^32 - 1. */
  predicate IsIndex(k: Text) {
    k != [] && Digits(k) && (k[0] == '0' as int ==> |k| == 1) && DecimalValue(k) < 0xFFFF_FFFF
  }

  /** Array indices come first, as numbers; other keys follow, unit by unit. */
  predicate Before(j: Text, k: Text) {
    if IsIndex(j) && IsIndex(k) then DecimalValue(j) < DecimalValue(k)
    else if IsIndex(j) || IsIndex(k) then IsIndex(j)
    else Less(j, k)
  }

  /** In every object, at every depth, each key comes before those that follow it. */
  predicate KeysAscend(v: Json) {
    match v
    case Arr(items) => forall i | 0 <= i < |items| :: KeysAscend(items[i])
    case Obj(fs) =>
      && (forall i, j | 0 <= i < j < |fs| :: Before(fs[i].key, fs[j].key))
      && forall i | 0 <= i < |fs| :: KeysAscend(fs[i].value)
    case _ => true
  }

  function Pow10(n: nat): nat {
    if n == 0 then 1 else 10 * Pow10(n - 1)
  }

  lemma {:induction false} Pow10Grows(m: nat, n: nat)
    requires m <= n
    ensures Pow10(m) <= Pow10(n)
  {
    if m < n {
      Pow10Grows(m, n - 1);
    }
  }

  /** A numeral's value, by its first digit. */
  lemma {:induction false} DecimalHead(t: Text)
    requires Digits(t) && t != []
    ensures Digits(t[1..])
    ensures DecimalValue(t) == (t[0] - '0' as int) * Pow10(|t| - 1) + DecimalValue(t[1..])
  {
    var n := |t| - 1;
    if n == 0 {
      assert t[..0] == [] && t[1..] == [];
    } else {
      DecimalHead(t[..n]);
      assert t[..n][1..] == t[1..][..n - 1];
      TenTimes(t[0] - '0' as int, Pow10(n - 1), DecimalValue(t[1..][..n - 1]));
    }
  }

  lemma TenTimes(d: int, p: nat, x: nat)
    ensures 10 * (d * p + x) == d * (10 * p) + 10 * x
  {
  }

  lemma ScaledDigit(d: nat, p: nat, r: nat)
    requires d <= 9 && r < p
    ensures d * p + r < 10 * p && (d > 0 ==> p <= d * p + r)
  {
    ProductOrder(d, 9, p);
    if d > 0 {
      ProductOrder(1, d, p);
    }
  }

  lemma FirstDigitDecides(a: nat, b: nat, p: nat, x: nat, y: nat)
    requires a < b && x < p
    ensures a * p + x < b * p + y
  {
    OneMore(a, p);
    ProductOrder(a + 1, b, p);
  }

  lemma OneMore(a: nat, p: nat)
    ensures (a + 1) * p == a * p + p
  {
  }

  lemma {:induction false} ProductOrder(m: nat, n: nat, p: nat)
    requires m <= n
    ensures m * p <= n * p
  {
    if m < n {
      ProductOrder(m, n - 1, p);
      OneMore(n - 1, p);
    }
  }

  lemma {:induction false} DecimalBounds(t: Text)
    requires Digits(t)
    ensures DecimalValue(t) < Pow10(|t|)
    ensures t != [] && t[0] != '0' as int ==> Pow10(|t| - 1) <= DecimalValue(t)
  {
    if t != [] {
      DecimalHead(t);
      DecimalBounds(t[1..]);
      hide DecimalValue;
      ScaledDigit(t[0] - '0' as int, Pow10(|t| - 1), DecimalValue(t[1..]));
    }
  }

  /** Numerals of one length compare as numbers do. */
  lemma {:induction false} SameLengthOrder(j: Text, k: Text)
    requires Digits(j) && Digits(k) && |j| == |k|
    ensures Less(j, k) <==> DecimalValue(j) < DecimalValue(k)
  {
    if j != [] {
      DecimalHead(j);
      DecimalHead(k);
      DecimalBounds(j[1..]);
      DecimalBounds(k[1..]);
      SameLengthOrder(j[1..], k[1..]);
      hide DecimalValue;
      hide Pow10;
      var p, x, y := Pow10(|j| - 1), DecimalValue(j[1..]), DecimalValue(k[1..]);
      if j[0] < k[0] {
        FirstDigitDecides(j[0] - '0' as int, k[0] - '0' as int, p, x, y);
      } else if k[0] < j[0] {
        FirstDigitDecides(k[0] - '0' as int, j[0] - '0' as int, p, y, x);
      }
    }
  }

  lemma DecimalPrefix(t: Text, i: nat)
    requires Digits(t) && i < |t|
    ensures DecimalValue(t[..i + 1]) == 10 * DecimalValue(t[..i]) + (t[i] - '0' as int)
  {
    assert t[..i + 1][..i] == t[..i];
  }

  lemma MaxIndexValue()
    ensures Digits(MAX_INDEX) && |MAX_INDEX| == 10 && DecimalValue(MAX_INDEX) == 0xFFFF_FFFE
    ensures Pow10(9) == 1_000_000_000 && Pow10(10) == 10_000_000_000
  {
    hide DecimalValue;
    var t := MAX_INDEX;
    DecimalOfNone();
    assert t[..0] == [] && t[..10] == t;
    DecimalPrefix(t, 0);
    DecimalPrefix(t, 1);
    DecimalPrefix(t, 2);
    DecimalPrefix(t, 3);
    DecimalPrefix(t, 4);
    DecimalPrefix(t, 5);
    DecimalPrefix(t, 6);
    DecimalPrefix(t, 7);
    DecimalPrefix(t, 8);
    DecimalPrefix(t, 9);
  }

  lemma DecimalOfNone()
    ensures DecimalValue([]) == 0
  {
  }

  lemma {:induction false} ArrayIndexIsIndex(k: Text)
    ensures ArrayIndex(k) <==> IsIndex(k)
  {
    hide DecimalValue, MAX_INDEX;
    MaxIndexValue();
    if k != [] && Digits(k) && (k[0] != '0' as int || |k| == 1) {
      DecimalBounds(k);
      if |k| == 10 {
        SameLengthOrder(MAX_INDEX, k);
      } else if |k| < 10 {
        Pow10Grows(|k|, 9);
      } else {
        Pow10Grows(10, |k| - 1);
      }
    }
  }

  lemma {:induction false} RankIsOrder(j: Text, k: Text)
    requires Less(Rank(j), Rank(k))
    ensures Before(j, k)
  {
    hide ArrayIndex, DecimalValue;
    ArrayIndexIsIndex(j);
    ArrayIndexIsIndex(k);
    var a, b := Rank(j), Rank(k);
    if ArrayIndex(j) && ArrayIndex(k) {
      DecimalBounds(j);
      DecimalBounds(k);
      assert a[1..][0] == |j| && b[1..][0] == |k| && a[1..][1..] == j && b[1..][1..] == k;
      if |j| < |k| {
        Pow10Grows(|j|, |k| - 1);
      } else {
        SameLengthOrder(j, k);
      }
    } else if !ArrayIndex(j) && !ArrayIndex(k) {
      assert a[1..] == j && b[1..] == k;
    }
  }

  lemma {:induction false} StrictPairs(xs: seq<Text>, i: nat, j: nat)
    requires StrictlySorted(xs) && i < j < |xs|
    ensures Less(xs[i], xs[j])
  {
    hide Less;
    if i == 0 {
      StrictHead(xs);
      assert xs[j] == xs[1..][j - 1];
    } else {
      StrictPairs(xs[1..], i - 1, j - 1);
    }
  }

  lemma {:induction false} NulledFieldsAt(fs: seq<Field>)
    ensures |NulledFields(fs)| == |fs|
    ensures forall i | 0 <= i < |fs| :: NulledFields(fs)[i] == Field(fs[i].key, Nulled(fs[i].value))
  {
    hide Nulled;
    if fs != [] {
      NulledFieldsAt(fs[1..]);
    }
  }

  lemma {:induction false} LosslessEach(fs: seq<Field>)
    requires forall i | 0 <= i < |fs| :: fs[i].key != PROTO && Lossless(fs[i].value)
    ensures LosslessFields(fs)
  {
    hide Lossless;
    if fs != [] {
      LosslessEach(fs[1..]);
    }
  }

  /** What is printed has its keys in order, and nothing that the text would not show. */
  lemma {:induction false} PrintedInOrder(v: Json)
    requires WellFormed(v)
    ensures var w := Nulled(Normalize(v)); KeysAscend(w) && Lossless(w)
    decreases v, 1
  {
    match v
    case Arr(items) =>
      ItemsInOrder(items);
    case Obj(fs) =>
      hide Normalize, Nulled, Sort;
      FieldsInOrder(fs);
    case _ =>
  }

  lemma {:induction false} ItemsInOrder(items: seq<Json>)
    requires WellFormedItems(items)
    ensures var r := NulledItems(NormalizeItems(items));
      LosslessItems(r) && forall i | 0 <= i < |r| :: KeysAscend(r[i])
    decreases items, 0
  {
    if items != [] {
      PrintedInOrder(items[0]);
      hide Normalize, Nulled, Lossless, KeysAscend, WellFormed;
      ItemsInOrder(items[1..]);
    }
  }

  lemma {:induction false} FieldsInOrder(fs: seq<Field>)
    requires WellFormedFields(fs)
    ensures var w := Nulled(Normalize(Obj(fs))); KeysAscend(w) && Lossless(w)
    decreases fs, 0
  {
    hide Sort, NormalizeFields, Nulled, Normalize, Before, WellFormed, WellFormedFields, Lossless, NulledFields, KeySet;
    var r := Sort(NormalizeFields(fs), KeyOf);
    var n := NulledFields(r);
    NormalizeObj(fs);
    NulledObj(r);
    NulledFieldsAt(r);
    CopyOrder(fs);
    assert forall i, j | 0 <= i < j < |r| :: Before(r[i].key, r[j].key);
    forall i | 0 <= i < |n| ensures KeysAscend(n[i].value) && n[i].key != PROTO && Lossless(n[i].value) {
      var k := SortedFieldOrigin(fs, i);
      FieldShown(fs, k);
      PrintedInOrder(fs[k].value);
    }
    LosslessEach(n);
    LosslessObj(n);
  }

  /** No key of a smaller text precedes an array index, unless it is an index of smaller value. */
  ghost predicate LexicographicKeys(keys: set<Text>) {
    forall j, k | j in keys && k in keys && IsIndex(j) && Less(k, j) :: IsIndex(k) && DecimalValue(k) < DecimalValue(j)
  }

  lemma {:induction false} KeyAt(fs: seq<Field>, k: Text) returns (i: nat)
    requires k in KeySet(fs)
    ensures i < |fs| && fs[i].key == k
  {
    if fs[0].key == k {
      i := 0;
    } else {
      var j := KeyAt(fs[1..], k);
      i := j + 1;
    }
  }

  lemma {:induction false} KeyIn(fs: seq<Field>, i: nat)
    requires i < |fs|
    ensures fs[i].key in KeySet(fs)
  {
    if i > 0 {
      KeyIn(fs[1..], i - 1);
    }
  }

  lemma BeforeIsLess(j: Text, k: Text, keys: set<Text>)
    requires Before(j, k) && j != k && j in keys && k in keys && LexicographicKeys(keys)
    ensures Less(j, k)
  {
    hide IsIndex, DecimalValue, Less;
    LessTrichotomy(j, k);
  }

  predicate Lexicographic(r: seq<Field>) {
    forall i, j | 0 <= i < j < |r| :: Less(r[i].key, r[j].key)
  }

  predicate InCopyOrder(r: seq<Field>) {
    forall i, j | 0 <= i < j < |r| :: Before(r[i].key, r[j].key)
  }

  lemma {:induction false} LexicographicPairs(r: seq<Field>)
    requires InCopyOrder(r) && Lexicographic(r)
    ensures LexicographicKeys(KeySet(r))
  {
    hide DecimalValue, Less, KeySet;
    forall j, k | j in KeySet(r) && k in KeySet(r) && IsIndex(j) && Less(k, j)
      ensures IsIndex(k) && DecimalValue(k) < DecimalValue(j)
    {
      var a := KeyAt(r, j);
      var b := KeyAt(r, k);
      LessTrichotomy(j, k);
      assert b < a ==> Before(r[b].key, r[a].key);
    }
  }

  lemma {:induction false} CopyOrder(fs: seq<Field>)
    requires WellFormedFields(fs)
    ensures var r := Sort(NormalizeFields(fs), KeyOf); InCopyOrder(r) && KeySet(r) == KeySet(fs) - {PROTO}
    ensures var r := Sort(NormalizeFields(fs), KeyOf); forall i, j | 0 <= i < j < |r| :: r[i].key != r[j].key
  {
    hide Sort, NormalizeFields, Rank, WellFormed, WellFormedFields, KeySet, Less, Before, StrictlySorted, Ranks;
    var r := Sort(NormalizeFields(fs), KeyOf);
    NormalizeFieldsKeepsShown(fs);
    SortFields(NormalizeFields(fs));
    SortedStrictly(fs);
    forall i, j | 0 <= i < j < |r| ensures Before(r[i].key, r[j].key) && r[i].key != r[j].key {
      StrictPairs(Ranks(r), i, j);
      RankIsOrder(r[i].key, r[j].key);
      LessTrichotomy(Rank(r[i].key), Rank(r[j].key));
    }
  }

  /** The keys of the copy are in lexicographic order exactly when the keys of the object are such. */
  lemma {:induction false} LexicographicExactly(fs: seq<Field>)
    requires WellFormedFields(fs)
    ensures Lexicographic(Sort(NormalizeFields(fs), KeyOf)) <==> LexicographicKeys(KeySet(fs) - {PROTO})
  {
    hide Sort, NormalizeFields, WellFormedFields, KeySet, Less, Before, LexicographicKeys;
    var r := Sort(NormalizeFields(fs), KeyOf);
    CopyOrder(fs);
    if LexicographicKeys(KeySet(r)) {
      forall i, j | 0 <= i < j < |r| ensures Less(r[i].key, r[j].key) {
        KeyIn(r, i);
        KeyIn(r, j);
        BeforeIsLess(r[i].key, r[j].key, KeySet(r));
      }
    }
    if Lexicographic(r) {
      LexicographicPairs(r);
    }
  }

  /** Not so for the keys 9 and 10: the copy has 9 first, and the text 10 comes before it. */
  lemma NineBeforeTen()
    ensures var nine, ten := Literal("9"), Literal("10");
      Before(nine, ten) && Less(ten, nine) && !LexicographicKeys({nine, ten})
  {
    var nine, ten := Literal("9"), Literal("10");
    DecimalOfNone();
    assert nine[..0] == [] && ten[..0] == [];
    DecimalPrefix(nine, 0);
    DecimalPrefix(ten, 0);
    DecimalPrefix(ten, 1);
    assert nine[..1] == nine && ten[..2] == ten;
    hide DecimalValue;
    assert IsIndex(nine) && IsIndex(ten);
  }

  lemma NulledObj(fs: seq<Field>)
    ensures Nulled(Obj(fs)) == Obj(NulledFields(fs))
  {
  }

  lemma LosslessObj(fs: seq<Field>)
    ensures Lossless(Obj(fs)) <==> LosslessFields(fs)
  {
  }

  /**
   * The text of canonicalJson(v) is JSON, without white space between tokens. It reads as
   * v but for what the copy and the printer drop, and its keys ascend at every depth.
   */
  lemma {:induction false} CanonicalJsonReads(v: Json)
    requires WellFormed(v)
    ensures var r := Read(CanonicalJson(v));
      r.Some? && Meaning(r.value) == Shown(v) && KeysAscend(r.value)
  {
    hide Print, Normalize, Nulled, Shown, Meaning, WellFormed, KeysAscend, Lossless, ReadValue;
    var p := Normalize(v);
    NormalizeKeepsShown(v);
    PrintRead(p, []);
    assert Print(p) + [] == Print(p);
    NulledShowsSame(p);
    PrintedInOrder(v);
    ShownIsMeaning(Nulled(p));
  }
}
