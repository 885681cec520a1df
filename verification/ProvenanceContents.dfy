/**
 * What a record says: under each key of the payload object, the value that the caller
 * of append supplied, and under no other key anything.
 */
module ProvenanceContents {
  import opened Prelude
  import opened CodeUnits
  import opened JsonText
  import opened CanonicalJson
  import opened ProvenancePayload
  import opened ProvenanceSpec
  import opened ProvenanceAppend

  predicate Shows(m: map<Text, Value>, key: string, v: Value) {
    Literal(key) in m && m[Literal(key)] == v
  }

  predicate ShowsTexts(m: map<Text, Value>, key: string, ts: seq<Text>) {
    && Literal(key) in m && m[Literal(key)].VArr? && |m[Literal(key)].items| == |ts|
    && forall i | 0 <= i < |ts| :: m[Literal(key)].items[i] == VStr(ts[i])
  }

  predicate ShowsIfAny(m: map<Text, Value>, key: string, v: Option<Value>) {
    if v.Some? then Shows(m, key, v.value) else Literal(key) !in m
  }

  const NAMES: set<string> := {
    "seq", "timestamp", "type", "source_files", "source_hashes", "prompt_hash", "model_id", "response_hash",
    "wiki_files_written", "wiki_file_hashes_after", "previous_id", "previous_chain_hash", "metadata", "tenant_id"}

  /** The payload object of an append that found the tail `m` in memory. */
  ghost predicate Carries(p: Payload, m: Memory, i: Input, timestamp: Text, configured: Option<Text>) {
    var o := ShownFields(PayloadFields(p));
    && CarriesPosition(o, m)
    && CarriesInput(o, i)
    && Shows(o, "timestamp", VStr(timestamp))
    && CarriesTenant(o, i, configured)
    && forall k | k in o :: exists name | name in NAMES :: k == Literal(name)
  }

  predicate CarriesPosition(o: map<Text, Value>, m: Memory) {
    && Shows(o, "seq", VNum(IntText(m.nextSeq)))
    && Shows(o, "previous_id", if m.lastId.Some? then VStr(m.lastId.value) else VNull)
    && Shows(o, "previous_chain_hash", VStr(m.lastChainHash))
  }

  predicate CarriesInput(o: map<Text, Value>, i: Input) {
    && Shows(o, "type", VStr(i.operation))
    && ShowsTexts(o, "source_files", i.sourceFiles)
    && ShowsTexts(o, "source_hashes", i.sourceHashes)
    && Shows(o, "prompt_hash", VStr(i.promptHash))
    && Shows(o, "model_id", VStr(i.modelId))
    && Shows(o, "response_hash", VStr(i.responseHash))
    && ShowsTexts(o, "wiki_files_written", i.wikiFilesWritten)
    && Shows(o, "wiki_file_hashes_after", VObj(ShownFields(i.wikiFileHashesAfter)))
    && ShowsIfAny(o, "metadata", if i.metadata.Some? then Some(VObj(ShownFields(i.metadata.value))) else None)
  }

  /** The caller's tenant, else the configured one; an empty name is none. */
  predicate CarriesTenant(o: map<Text, Value>, i: Input, configured: Option<Text>) {
    && (i.tenantId.Some? && i.tenantId.value != [] ==> Shows(o, "tenant_id", VStr(i.tenantId.value)))
    && (i.tenantId.None? && configured.Some? && configured.value != [] ==> Shows(o, "tenant_id", VStr(configured.value)))
    && ((i.tenantId == Some([]) || (i.tenantId.None? && (configured.None? || configured == Some([])))) ==>
          Literal("tenant_id") !in o)
  }

  lemma KeyNames()
    ensures |KEYS| == 14
    ensures KEYS[0] == "seq" && KEYS[1] == "timestamp" && KEYS[2] == "type" && KEYS[3] == "source_files"
    ensures KEYS[4] == "source_hashes" && KEYS[5] == "prompt_hash" && KEYS[6] == "model_id" && KEYS[7] == "response_hash"
    ensures KEYS[8] == "wiki_files_written" && KEYS[9] == "wiki_file_hashes_after" && KEYS[10] == "previous_id"
    ensures KEYS[11] == "previous_chain_hash" && KEYS[12] == "metadata" && KEYS[13] == "tenant_id"
  {
  }

  /** The payload object under the k-th key. */
  lemma ShownUnder(p: Payload, k: nat, key: string)
    requires k < |KEYS| && KEYS[k] == key
    ensures var o := ShownFields(PayloadFields(p));
      if ValueAt(p, k).Some? then Shows(o, key, Shown(ValueAt(p, k).value)) else Literal(key) !in o
  {
    hide ValueAt, Shown, KEYS, ShownFields, FieldsFrom;
    FieldsFromShow(p, 0, k);
  }

  lemma {:induction false} TextsShown(ts: seq<Text>)
    ensures |ShownItems(Texts(ts))| == |ts| && forall i | 0 <= i < |ts| :: ShownItems(Texts(ts))[i] == VStr(ts[i])
  {
    if ts != [] {
      TextsShown(ts[1..]);
    }
  }

  lemma ArrShown(ts: seq<Text>)
    ensures Shown(Arr(Texts(ts))) == VArr(ShownItems(Texts(ts)))
  {
  }

  lemma ScalarsShown()
    ensures forall s :: Shown(Str(s)) == VStr(s)
    ensures forall t :: Shown(Num(t)) == VNum(t)
    ensures Shown(Null) == VNull
  {
  }

  lemma OnlyNames(p: Payload)
    ensures forall k | k in ShownFields(PayloadFields(p)) :: exists name | name in NAMES :: k == Literal(name)
  {
    hide ValueAt, Shown, ShownFields, FieldsFrom;
    ShownKeys(PayloadFields(p));
    forall k | k in ShownFields(PayloadFields(p)) ensures exists name | name in NAMES :: k == Literal(name) {
      FieldsFromKeys(p, 0, k);
      var j :| 0 <= j < |KEYS| && k == Key(j) && ValueAt(p, j).Some?;
      NameOf(j);
    }
  }

  lemma NameOf(j: nat)
    requires j < |KEYS|
    ensures KEYS[j] in NAMES && Key(j) == Literal(KEYS[j])
  {
  }

  lemma MadePosition(m: Memory, i: Input, timestamp: Text, configured: Option<Text>)
    ensures CarriesPosition(ShownFields(PayloadFields(MakePayload(m, i, timestamp, configured))), m)
  {
    var p := MakePayload(m, i, timestamp, configured);
    KeyNames();
    hide KEYS, ShownFields, FieldsFrom, Literal;
    ShownUnder(p, 0, "seq");
    ShownUnder(p, 10, "previous_id");
    ShownUnder(p, 11, "previous_chain_hash");
    ScalarsShown();
    hide PayloadFields, IntText, Texts, Shown;
  }

  lemma MadeInput(m: Memory, i: Input, timestamp: Text, configured: Option<Text>)
    ensures CarriesInput(ShownFields(PayloadFields(MakePayload(m, i, timestamp, configured))), i)
  {
    var p := MakePayload(m, i, timestamp, configured);
    KeyNames();
    hide KEYS, ShownFields, FieldsFrom, Literal;
    ShownUnder(p, 2, "type");
    ShownUnder(p, 3, "source_files");
    ShownUnder(p, 4, "source_hashes");
    ShownUnder(p, 5, "prompt_hash");
    ShownUnder(p, 6, "model_id");
    ShownUnder(p, 7, "response_hash");
    ShownUnder(p, 8, "wiki_files_written");
    ShownUnder(p, 9, "wiki_file_hashes_after");
    ShownUnder(p, 12, "metadata");
    ScalarsShown();
    ArrShown(i.sourceFiles);
    ArrShown(i.sourceHashes);
    ArrShown(i.wikiFilesWritten);
    TextsShown(i.sourceFiles);
    TextsShown(i.sourceHashes);
    TextsShown(i.wikiFilesWritten);
    ObjShown(i.wikiFileHashesAfter);
    if i.metadata.Some? {
      ObjShown(i.metadata.value);
    }
    hide PayloadFields, ShownItems, IntText, Texts, Shown;
  }

  lemma MadeTenant(m: Memory, i: Input, timestamp: Text, configured: Option<Text>)
    ensures var o := ShownFields(PayloadFields(MakePayload(m, i, timestamp, configured)));
      CarriesTenant(o, i, configured) && Shows(o, "timestamp", VStr(timestamp))
  {
    var p := MakePayload(m, i, timestamp, configured);
    KeyNames();
    hide KEYS, ShownFields, FieldsFrom, Literal;
    ShownUnder(p, 1, "timestamp");
    ShownUnder(p, 13, "tenant_id");
    ScalarsShown();
    hide PayloadFields, IntText, Texts, Shown;
  }

  /** A record carries what append was called with, and the position memory gave it. */
  lemma RecordCarries(c: Crypto, m: Memory, job: Job, configured: Option<Text>)
    ensures Carries(MakeRecord(c, m, job, configured).payload, m, job.input, job.timestamp, configured)
  {
    hide CarriesPosition, CarriesInput, CarriesTenant, Shows, ShownFields, PayloadFields;
    MadeRecordFits(c, m, job, configured);
    hide MakeRecord, MakePayload;
    MadePosition(m, job.input, job.timestamp, configured);
    MadeInput(m, job.input, job.timestamp, configured);
    MadeTenant(m, job.input, job.timestamp, configured);
    OnlyNames(MakePayload(m, job.input, job.timestamp, configured));
  }

  /** And the text hashed into its id reads, as JSON, as that object, its keys ascending. */
  lemma HashedTextSays(p: Payload)
    requires Plain(p)
    ensures var r := Read(PayloadText(p));
      r.Some? && Meaning(r.value) == VObj(ShownFields(PayloadFields(p))) && KeysAscend(r.value)
  {
    hide Plain, Shown, WellFormed, KEYS, FieldsFrom, ShownFields, CanonicalJson.CanonicalJson, Read, KeysAscend;
    FieldsFromWellFormed(p, 0);
    ObjWellFormed(PayloadFields(p));
    ObjShown(PayloadFields(p));
    CanonicalJsonReads(Obj(PayloadFields(p)));
  }
}
