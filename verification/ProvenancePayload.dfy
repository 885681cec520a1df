/**
 * Provenance records, the payload object whose canonical text is hashed, and exactly
 * how far the text determines the fields of the payload.
 */
module ProvenancePayload {
  import opened Prelude
  import opened CodeUnits
  import opened JsonText
  import opened CanonicalJson

  /** The digit zero, n times. */
  function Zeros(n: nat): (t: Text)
    ensures |t| == n && forall i | 0 <= i < n :: t[i] == ZERO
  {
    if n == 0 then [] else [ZERO] + Zeros(n - 1)
  }

  const GENESIS_HASH: Text := Zeros(64)

  /** A SHA-256 digest in hex. */
  type Digest = t: Text | |t| == 64 witness GENESIS_HASH

  /**
   * The fields of a record that enter its id. Verification compares the position and the
   * two links; it takes the others as the file has them, of whatever JSON type, or absent.
   */
  datatype Payload = Payload(
    seqNo: int,
    timestamp: Option<Json>,
    operation: Option<Json>,
    sourceFiles: Option<Json>,
    sourceHashes: Option<Json>,
    promptHash: Option<Json>,
    modelId: Option<Json>,
    responseHash: Option<Json>,
    wikiFilesWritten: Option<Json>,
    wikiFileHashesAfter: Option<Json>,
    previousId: Option<Text>,
    previousChainHash: Text,
    metadata: Option<Json>,
    tenantId: Option<Json>)

  datatype Record = Record(payload: Payload, id: Text, chainHash: Text, hmac: Option<Text>, keyId: Option<Text>)

  // ---------------------------------------------------------------------------
  // Numbers
  // ---------------------------------------------------------------------------

  function NatText(n: nat): (t: Text)
    ensures t != []
  {
    if n < 10 then [ZERO + n] else NatText(n / 10) + [ZERO + n % 10]
  }

  function IntText(n: int): Text {
    if n < 0 then ['-' as int] + NatText(-n) else NatText(n)
  }

  /** The digits of a number, without leading zeros, have its value. */
  lemma {:induction false} NatTextReads(n: nat)
    ensures var t := NatText(n);
      Digits(t) && DecimalValue(t) == n && (t[0] == '0' as int ==> |t| == 1) && (n > 0 ==> t[0] != '0' as int)
  {
    if n >= 10 {
      NatTextReads(n / 10);
      assert NatText(n)[..|NatText(n)| - 1] == NatText(n / 10);
    } else {
      assert NatText(n)[..0] == [];
    }
  }

  /** A sequence number prints as a JSON number of its value. */
  lemma IntTextIsNumber(n: int)
    ensures NumberText(IntText(n))
    ensures n >= 0 ==> Digits(IntText(n)) && DecimalValue(IntText(n)) == n
  {
    var m := if n < 0 then -n else n;
    NatTextReads(m);
    hide NatText, DecimalValue;
    if n < 0 {
      NumeralIsNumber(NatText(m), ['-' as int]);
    } else {
      NumeralIsNumber(NatText(m), []);
      assert [] + NatText(m) == NatText(m);
    }
  }

  lemma NumeralIsNumber(t: Text, sign: Text)
    requires Digits(t) && t != [] && (t[0] == '0' as int ==> |t| == 1)
    requires sign == [] || sign == ['-' as int]
    ensures NumberText(sign + t)
  {
    var s, i := sign + t, |sign|;
    assert forall k | i <= k < |s| :: s[k] == t[k - i];
    assert sign != [] ==> s[0] == '-' as int;
    DigitsToEnd(s, i);
    hide DigitsEnd;
    assert IntegerEnd(s, i) == |s|;
  }

  lemma {:induction false} DigitsToEnd(t: Text, i: nat)
    requires i <= |t| && forall k | i <= k < |t| :: Digit(t[k])
    ensures DigitsEnd(t, i) == |t|
    decreases |t| - i
  {
    if i < |t| {
      DigitsToEnd(t, i + 1);
    }
  }

  lemma {:induction false} NatTextInjective(m: nat, n: nat)
    requires NatText(m) == NatText(n)
    ensures m == n
  {
    assert NatText(m)[|NatText(m)| - 1] == ZERO + m % 10;
    assert NatText(n)[|NatText(n)| - 1] == ZERO + n % 10;
    if m >= 10 && n >= 10 {
      SplitAt(NatText(m / 10), [ZERO + m % 10], NatText(n / 10), [ZERO + n % 10]);
      NatTextInjective(m / 10, n / 10);
    }
  }

  lemma {:induction false} IntTextInjective(m: int, n: int)
    requires IntText(m) == IntText(n)
    ensures m == n
  {
    hide NatText;
    NatTextReads(if m < 0 then -m else m);
    NatTextReads(if n < 0 then -n else n);
    assert IntText(m)[0] == '-' as int <==> m < 0;
    assert IntText(n)[0] == '-' as int <==> n < 0;
    if m < 0 {
      assert NatText(-m) == IntText(m)[1..] == IntText(n)[1..] == NatText(-n);
      NatTextInjective(-m, -n);
    } else {
      NatTextInjective(m, n);
    }
  }

  // ---------------------------------------------------------------------------
  // The payload object
  // ---------------------------------------------------------------------------

  function Texts(ts: seq<Text>): (js: seq<Json>)
    ensures |js| == |ts| && WellFormedItems(js)
  {
    if ts == [] then [] else [Str(ts[0])] + Texts(ts[1..])
  }

  function NullableText(t: Option<Text>): Json {
    if t.Some? then Str(t.value) else Null
  }

  const KEYS: seq<string> := [
    "seq", "timestamp", "type", "source_files", "source_hashes", "prompt_hash", "model_id", "response_hash",
    "wiki_files_written", "wiki_file_hashes_after", "previous_id", "previous_chain_hash", "metadata", "tenant_id"]

  function Key(i: nat): Text
    requires i < |KEYS|
  {
    Literal(KEYS[i])
  }

  /** The value under the k-th key, if the payload has one. */
  function ValueAt(p: Payload, k: nat): Option<Json>
    requires k < |KEYS|
  {
    if k == 0 then Some(Num(IntText(p.seqNo)))
    else if k == 1 then p.timestamp
    else if k == 2 then p.operation
    else if k == 3 then p.sourceFiles
    else if k == 4 then p.sourceHashes
    else if k == 5 then p.promptHash
    else if k == 6 then p.modelId
    else if k == 7 then p.responseHash
    else if k == 8 then p.wikiFilesWritten
    else if k == 9 then p.wikiFileHashesAfter
    else if k == 10 then Some(NullableText(p.previousId))
    else if k == 11 then Some(Str(p.previousChainHash))
    else if k == 12 then p.metadata
    else p.tenantId
  }

  /** The values are JavaScript's: objects have distinct keys, numbers print as numbers. */
  predicate Plain(p: Payload) {
    forall k | 0 <= k < |KEYS| && ValueAt(p, k).Some? :: WellFormed(ValueAt(p, k).value)
  }

  /** The payload object from the k-th key on; an absent field is undefined, and is left out. */
  function FieldsFrom(p: Payload, k: nat): seq<Field>
    requires k <= |KEYS|
    decreases |KEYS| - k
  {
    if k == |KEYS| then []
    else (if ValueAt(p, k).Some? then [Field(Key(k), ValueAt(p, k).value)] else []) + FieldsFrom(p, k + 1)
  }

  function PayloadFields(p: Payload): seq<Field> {
    FieldsFrom(p, 0)
  }

  /** The text that is hashed into the record's id. */
  function PayloadText(p: Payload): Text {
    CanonicalJson.CanonicalJson(Obj(PayloadFields(p)))
  }

  function ShownAt(p: Payload, k: nat): Option<Value>
    requires k < |KEYS|
  {
    if ValueAt(p, k).Some? then Some(Shown(ValueAt(p, k).value)) else None
  }

  /** Agreement on every field, as far as canonical printing shows it. */
  predicate Agree(p: Payload, q: Payload) {
    && p.seqNo == q.seqNo
    && p.previousId == q.previousId
    && p.previousChainHash == q.previousChainHash
    && forall k | 0 <= k < |KEYS| :: ShownAt(p, k) == ShownAt(q, k)
  }

  /** No field holds an object with a member called __proto__ or a number that overflows. */
  predicate LosslessIn(p: Payload) {
    forall k | 0 <= k < |KEYS| && ValueAt(p, k).Some? :: Lossless(ValueAt(p, k).value)
  }

  function MeaningAt(p: Payload, k: nat): Option<Value>
    requires k < |KEYS|
  {
    if ValueAt(p, k).Some? then Some(Meaning(ValueAt(p, k).value)) else None
  }

  /** Agreement on every field, as values. */
  predicate AgreeInFull(p: Payload, q: Payload) {
    Agree(p, q) && forall k | 0 <= k < |KEYS| :: MeaningAt(p, k) == MeaningAt(q, k)
  }

  lemma AgreeMeansInFull(p: Payload, q: Payload)
    requires LosslessIn(p) && LosslessIn(q) && Agree(p, q)
    ensures AgreeInFull(p, q)
  {
    hide Shown, Meaning, Lossless, ValueAt;
    forall k | 0 <= k < |KEYS| ensures MeaningAt(p, k) == MeaningAt(q, k) {
      assert ShownAt(p, k) == ShownAt(q, k);
      if ValueAt(p, k).Some? {
        ShownIsMeaning(ValueAt(p, k).value);
        ShownIsMeaning(ValueAt(q, k).value);
      }
    }
  }

  lemma KeysDistinct()
    ensures forall i, j | 0 <= i < j < |KEYS| :: KEYS[i] != KEYS[j]
    ensures forall i, j | 0 <= i < |KEYS| && 0 <= j < |KEYS[i]| :: KEYS[i][j] as int < 0xFFFD
  {
  }

  lemma KeyInjective(i: nat, j: nat)
    requires i < |KEYS| && j < |KEYS| && Key(i) == Key(j)
    ensures i == j
  {
    KeysDistinct();
    hide KEYS;
    LiteralInjective(KEYS[i], KEYS[j]);
  }

  lemma KeyIsNotProto(k: nat)
    requires k < |KEYS|
    ensures Key(k) != PROTO
  {
    KeysDistinct();
    var name := KEYS[k];
    assert name != "__proto__";
    hide KEYS;
    LiteralsDiffer(name, "__proto__");
  }

  lemma LiteralsDiffer(a: string, b: string)
    requires forall i | 0 <= i < |a| :: a[i] as int < 0xFFFD
    requires forall i | 0 <= i < |b| :: b[i] as int < 0xFFFD
    requires a != b
    ensures Literal(a) != Literal(b)
  {
    if Literal(a) == Literal(b) {
      LiteralInjective(a, b);
    }
  }

  /** What the payload object shows under the j-th key. */
  lemma {:induction false} FieldsFromShow(p: Payload, k: nat, j: nat)
    requires k <= |KEYS| && j < |KEYS|
    ensures var m := ShownFields(FieldsFrom(p, k));
      && (j >= k && ValueAt(p, j).Some? ==> Key(j) in m && m[Key(j)] == Shown(ValueAt(p, j).value))
      && (j < k || ValueAt(p, j).None? ==> Key(j) !in m)
    decreases |KEYS| - k
  {
    hide ValueAt, Key, Shown, KEYS;
    if k < |KEYS| {
      FieldsFromShow(p, k + 1, j);
      KeyIsNotProto(k);
      var rest, v := FieldsFrom(p, k + 1), ValueAt(p, k);
      if v.Some? {
        var all := [Field(Key(k), v.value)] + rest;
        assert all[1..] == rest && FieldsFrom(p, k) == all;
        if j != k && Key(j) == Key(k) {
          KeyInjective(j, k);
        }
      } else {
        assert FieldsFrom(p, k) == rest;
      }
    }
  }

  /** And nothing else. */
  lemma {:induction false} FieldsFromKeys(p: Payload, k: nat, x: Text)
    requires k <= |KEYS| && x in KeySet(FieldsFrom(p, k))
    ensures exists j | k <= j < |KEYS| :: x == Key(j) && ValueAt(p, j).Some?
    decreases |KEYS| - k
  {
    hide ValueAt, Key, KEYS;
    if k < |KEYS| {
      var rest, v := FieldsFrom(p, k + 1), ValueAt(p, k);
      if v.Some? {
        var all := [Field(Key(k), v.value)] + rest;
        assert all[1..] == rest && FieldsFrom(p, k) == all;
        if x != Key(k) {
          FieldsFromKeys(p, k + 1, x);
        }
      } else {
        assert FieldsFrom(p, k) == rest;
        FieldsFromKeys(p, k + 1, x);
      }
    }
  }

  lemma {:induction false} FieldsFromWellFormed(p: Payload, k: nat)
    requires Plain(p) && k <= |KEYS|
    ensures WellFormedFields(FieldsFrom(p, k))
    decreases |KEYS| - k
  {
    hide ValueAt, Key, KEYS, WellFormed;
    if k < |KEYS| {
      FieldsFromWellFormed(p, k + 1);
      var rest, v := FieldsFrom(p, k + 1), ValueAt(p, k);
      if v.Some? {
        var all := [Field(Key(k), v.value)] + rest;
        assert all[1..] == rest && FieldsFrom(p, k) == all;
        if Key(k) in KeySet(rest) {
          FieldsFromKeys(p, k + 1, Key(k));
          var j :| k + 1 <= j < |KEYS| && Key(k) == Key(j);
          KeyInjective(j, k);
        }
      } else {
        assert FieldsFrom(p, k) == rest;
      }
    }
  }

  lemma {:induction false} ObjectsAgree(p: Payload, q: Payload)
    ensures ShownFields(PayloadFields(p)) == ShownFields(PayloadFields(q)) <==>
            forall k | 0 <= k < |KEYS| :: ShownAt(p, k) == ShownAt(q, k)
  {
    hide ValueAt, Key, KEYS, Shown, FieldsFrom, ShownFields;
    var m, n := ShownFields(PayloadFields(p)), ShownFields(PayloadFields(q));
    forall k: nat | k < |KEYS| ensures m == n ==> ShownAt(p, k) == ShownAt(q, k) {
      FieldsFromShow(p, 0, k);
      FieldsFromShow(q, 0, k);
    }
    if forall k | 0 <= k < |KEYS| :: ShownAt(p, k) == ShownAt(q, k) {
      ShownKeys(PayloadFields(p));
      ShownKeys(PayloadFields(q));
      forall x ensures x in m <==> x in n {
        KeyInBoth(p, q, x);
        KeyInBoth(q, p, x);
      }
      forall x | x in m ensures m[x] == n[x] {
        FieldsFromKeys(p, 0, x);
        var j :| 0 <= j < |KEYS| && x == Key(j) && ValueAt(p, j).Some?;
        FieldsFromShow(p, 0, j);
        FieldsFromShow(q, 0, j);
        assert ShownAt(p, j) == ShownAt(q, j);
      }
    }
  }

  lemma {:induction false} KeyInBoth(p: Payload, q: Payload, x: Text)
    requires forall k | 0 <= k < |KEYS| :: ShownAt(p, k) == ShownAt(q, k)
    ensures x in ShownFields(PayloadFields(p)) ==> x in ShownFields(PayloadFields(q))
  {
    hide ValueAt, Key, KEYS, Shown, FieldsFrom, ShownFields;
    if x in ShownFields(PayloadFields(p)) {
      ShownKeys(PayloadFields(p));
      FieldsFromKeys(p, 0, x);
      var j :| 0 <= j < |KEYS| && x == Key(j) && ValueAt(p, j).Some?;
      FieldsFromShow(q, 0, j);
      assert ShownAt(p, j) == ShownAt(q, j);
    }
  }

  lemma LinksAgree(p: Payload, q: Payload)
    requires forall k | 0 <= k < |KEYS| :: ShownAt(p, k) == ShownAt(q, k)
    ensures Agree(p, q)
  {
    hide IntText;
    assert ShownAt(p, 0) == ShownAt(q, 0) && ShownAt(p, 10) == ShownAt(q, 10) && ShownAt(p, 11) == ShownAt(q, 11);
    assert IntText(p.seqNo) == IntText(q.seqNo);
    IntTextInjective(p.seqNo, q.seqNo);
  }

  /** The hashed text determines every payload field, exactly as far as it is shown. */
  lemma {:induction false} PayloadTextDetermines(p: Payload, q: Payload)
    requires Plain(p) && Plain(q)
    ensures PayloadText(p) == PayloadText(q) <==> Agree(p, q)
  {
    hide Plain, Shown, WellFormed, KEYS, ShownAt, FieldsFrom;
    var fs, gs := PayloadFields(p), PayloadFields(q);
    FieldsFromWellFormed(p, 0);
    FieldsFromWellFormed(q, 0);
    ObjWellFormed(fs);
    ObjWellFormed(gs);
    CanonicalJsonShowsExactly(Obj(fs), Obj(gs));
    ObjShown(fs);
    ObjShown(gs);
    ObjectsAgree(p, q);
    if forall k | 0 <= k < |KEYS| :: ShownAt(p, k) == ShownAt(q, k) {
      LinksAgree(p, q);
    }
  }

  lemma ObjWellFormed(fs: seq<Field>)
    requires WellFormedFields(fs)
    ensures WellFormed(Obj(fs))
  {
  }
}
