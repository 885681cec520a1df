/**
 * Appending to the chain, one record after the other, and recovering its tail.
 */
module ProvenanceAppend {
  import opened Prelude
  import opened CodeUnits
  import opened JsonText
  import opened CanonicalJson
  import opened ProvenancePayload
  import opened ProvenanceSpec
  import K = KeyStoreSpec

  /** What a caller of append supplies. */
  datatype Input = Input(
    operation: Text,
    sourceFiles: seq<Text>,
    sourceHashes: seq<Text>,
    promptHash: Text,
    modelId: Text,
    responseHash: Text,
    wikiFilesWritten: seq<Text>,
    wikiFileHashesAfter: seq<Field>,
    metadata: Option<seq<Field>>,
    tenantId: Option<Text>)

  predicate PlainInput(i: Input) {
    WellFormedFields(i.wikiFileHashesAfter) && (i.metadata.Some? ==> WellFormedFields(i.metadata.value))
  }

  /** An append with what it reads on entering the critical section. */
  datatype Job = Job(input: Input, timestamp: Text, signer: Signer)

  /** The empty string is falsy, so it is left out of the payload. */
  function EffectiveTenant(i: Input, configured: Option<Text>): Option<Text> {
    var t := if i.tenantId.Some? then i.tenantId else configured;
    if t == Some([]) then None else t
  }

  function MakePayload(m: Memory, i: Input, timestamp: Text, tenant: Option<Text>): Payload {
    var t := EffectiveTenant(i, tenant);
    Payload(m.nextSeq, Some(Str(timestamp)), Some(Str(i.operation)), Some(Arr(Texts(i.sourceFiles))),
            Some(Arr(Texts(i.sourceHashes))), Some(Str(i.promptHash)), Some(Str(i.modelId)),
            Some(Str(i.responseHash)), Some(Arr(Texts(i.wikiFilesWritten))), Some(Obj(i.wikiFileHashesAfter)),
            m.lastId, m.lastChainHash,
            if i.metadata.Some? then Some(Obj(i.metadata.value)) else None,
            if t.Some? then Some(Str(t.value)) else None)
  }

  lemma MadePayloadIsPlain(m: Memory, i: Input, timestamp: Text, tenant: Option<Text>)
    requires PlainInput(i)
    ensures Plain(MakePayload(m, i, timestamp, tenant))
  {
    hide Texts, WellFormedFields, EffectiveTenant, NumberText, IntText;
    IntTextIsNumber(m.nextSeq);
  }

  function MakeRecord(c: Crypto, m: Memory, job: Job, tenant: Option<Text>): Record {
    var p := MakePayload(m, job.input, job.timestamp, tenant);
    var id := IdOf(c, p);
    Sign(c, job.signer, Record(p, id, ChainHashOf(c, m.lastChainHash, id), None, None))
  }

  function AfterAppend(m: Memory, r: Record): Memory {
    Memory(r.payload.seqNo + 1, r.chainHash, Some(r.id), m.totalRecords + 1)
  }

  /** The record made from the memory of a tail has no link errors against it. */
  lemma MadeRecordFits(c: Crypto, m: Memory, job: Job, tenant: Option<Text>)
    ensures var r := MakeRecord(c, m, job, tenant);
      && LinkErrors(c, m, r) == []
      && r.payload == MakePayload(m, job.input, job.timestamp, tenant)
      && r.payload.seqNo == m.nextSeq
  {
    hide PayloadText, IdOf, ChainHashOf, SignedText, LinkErrors, Texts;
    LinkErrorsMeaning(c, m, MakeRecord(c, m, job, tenant));
  }

  lemma {:induction false} AppendExtends(c: Crypto, rs: seq<Record>, job: Job, tenant: Option<Text>)
    requires Linked(c, rs)
    ensures var r := MakeRecord(c, MemoryOf(rs), job, tenant);
      && Linked(c, rs + [r])
      && MemoryOf(rs + [r]) == AfterAppend(MemoryOf(rs), r)
      && (PlainInput(job.input) ==> Plain(r.payload))
  {
    var r := MakeRecord(c, MemoryOf(rs), job, tenant);
    if PlainInput(job.input) {
      MadePayloadIsPlain(MemoryOf(rs), job.input, job.timestamp, tenant);
    }
    hide Plain, PlainInput, PayloadText, IdOf, ChainHashOf, Linked, LinkErrors, MakePayload;
    MadeRecordFits(c, MemoryOf(rs), job, tenant);
    hide MakeRecord;
    LastLinked(c, rs, r);
    LinkedSplit(c, rs, r);
  }

  // ---------------------------------------------------------------------------
  // Recovering the tail
  // ---------------------------------------------------------------------------

  datatype Line = Blank | Malformed | Entry(record: Record)

  datatype InitError = NoValidRecords | TailIdInconsistent | TailChainHashInconsistent | TailHmac(why: HmacFailure) | KeyUnavailable

  /** readAll: blank and unparseable lines are skipped. */
  function Parsed(lines: seq<Line>): seq<Record> {
    if lines == [] then []
    else Parsed(lines[..|lines| - 1]) + (if lines[|lines| - 1].Entry? then [lines[|lines| - 1].record] else [])
  }

  /** Reading goes line by line: each entry gives its record, and any other line nothing. */
  lemma {:induction false} ParsedLineByLine(a: seq<Line>, b: seq<Line>, r: Record)
    ensures Parsed(a + b) == Parsed(a) + Parsed(b)
    ensures Parsed([Entry(r)]) == [r] && Parsed([Blank]) == [] == Parsed([Malformed])
  {
    assert [Entry(r)][..0] == [] && [Blank][..0] == [] && [Malformed][..0] == [];
    if b == [] {
      assert a + b == a;
    } else {
      var n := |b| - 1;
      ParsedLineByLine(a, b[..n], r);
      assert (a + b)[..|a + b| - 1] == a + b[..n];
    }
  }

  /** The tail record must carry its own digests and, if signed, a good signature. */
  function TailProblem(c: Crypto, keys: Keys, last: Record): Option<InitError> {
    if IdOf(c, last.payload) != last.id then Some(TailIdInconsistent)
    else if ChainHashOf(c, last.payload.previousChainHash, last.id) != last.chainHash then Some(TailChainHashInconsistent)
    else match CheckHmac(c, keys, last)
      case Fails(why) => Some(TailHmac(why))
      case Throws => Some(KeyUnavailable)
      case Passes => None
  }

  /** What init makes of the file. */
  function Recover(c: Crypto, keys: Keys, lines: seq<Line>): Result<Memory, InitError> {
    var rs := Parsed(lines);
    if rs == [] then (if lines == [] then Ok(FRESH_MEMORY) else Err(NoValidRecords))
    else match TailProblem(c, keys, rs[|rs| - 1])
      case Some(problem) => Err(problem)
      case None => Ok(MemoryOf(rs))
  }

  /**
   * Init adopts a tail exactly when the file is empty, or its last record that can be
   * read carries its own digests and passes the signature check.
   */
  lemma RecoverExactly(c: Crypto, keys: Keys, lines: seq<Line>, m: Memory)
    ensures var rs := Parsed(lines);
      Recover(c, keys, lines) == Ok(m) <==>
      if rs == [] then lines == [] && m == Memory(1, Zeros(64), None, 0)
      else
        var last := rs[|rs| - 1];
        && last.id == c.sha(PayloadText(last.payload))
        && last.chainHash == c.sha(last.payload.previousChainHash + last.id)
        && CheckHmac(c, keys, last) == Passes
        && m == Memory(last.payload.seqNo + 1, last.chainHash, Some(last.id), |rs|)
  {
    hide CheckHmac, PayloadText, Parsed;
  }

  function Lines(rs: seq<Record>): seq<Line> {
    if rs == [] then [] else Lines(rs[..|rs| - 1]) + [Entry(rs[|rs| - 1])]
  }

  lemma {:induction false} ParsedLines(rs: seq<Record>)
    ensures Parsed(Lines(rs)) == rs && (Lines(rs) == [] <==> rs == [])
  {
    if rs != [] {
      var n := |rs| - 1;
      ParsedLines(rs[..n]);
      assert Lines(rs)[..|Lines(rs)| - 1] == Lines(rs[..n]);
      assert rs == rs[..n] + [rs[n]];
    }
  }

  /** A fresh init on an intact file rebuilds the tail of its records. */
  lemma {:induction false} RecoverIntact(c: Crypto, keys: Keys, rs: seq<Record>)
    requires Linked(c, rs) && (rs != [] ==> CheckHmac(c, keys, rs[|rs| - 1]) == Passes)
    ensures Recover(c, keys, Lines(rs)) == Ok(MemoryOf(rs))
  {
    hide IdOf, ChainHashOf, CheckHmac;
    ParsedLines(rs);
    if rs != [] {
      assert LinkedAt(c, rs, |rs| - 1);
    }
  }

  // ---------------------------------------------------------------------------
  // Sequential runs
  // ---------------------------------------------------------------------------

  /** The file after appending the jobs one after the other. */
  function SequentialRun(c: Crypto, tenant: Option<Text>, base: seq<Record>, jobs: seq<Job>): seq<Record> {
    if jobs == [] then base
    else
      var before := SequentialRun(c, tenant, base, jobs[..|jobs| - 1]);
      before + [MakeRecord(c, MemoryOf(before), jobs[|jobs| - 1], tenant)]
  }

  lemma {:induction false} SequentialRunLinked(c: Crypto, tenant: Option<Text>, base: seq<Record>, jobs: seq<Job>)
    requires Linked(c, base)
    ensures Linked(c, SequentialRun(c, tenant, base, jobs))
    ensures |SequentialRun(c, tenant, base, jobs)| == |base| + |jobs|
  {
    hide Linked, MakeRecord;
    if jobs != [] {
      SequentialRunLinked(c, tenant, base, jobs[..|jobs| - 1]);
      AppendExtends(c, SequentialRun(c, tenant, base, jobs[..|jobs| - 1]), jobs[|jobs| - 1], tenant);
    }
  }

  lemma {:induction false} SequentialRunStep(c: Crypto, tenant: Option<Text>, base: seq<Record>, jobs: seq<Job>, job: Job)
    ensures var before := SequentialRun(c, tenant, base, jobs);
      SequentialRun(c, tenant, base, jobs + [job]) == before + [MakeRecord(c, MemoryOf(before), job, tenant)]
  {
    hide MakeRecord, MemoryOf;
    assert (jobs + [job])[..|jobs|] == jobs;
  }

  /**
   * Why a write must be all or nothing: if the line reaches the file but the call
   * fails before memory is updated, the file is still good, and a restart would
   * carry on from it, but the next append breaks the chain.
   */
  lemma {:induction false} TornWriteBreaksTheNextAppend(c: Crypto, rs: seq<Record>, torn: Job, next: Job, tenant: Option<Text>)
    requires Linked(c, rs)
    ensures var r := MakeRecord(c, MemoryOf(rs), torn, tenant);
      && Linked(c, rs + [r])
      && !Linked(c, rs + [r] + [MakeRecord(c, MemoryOf(rs), next, tenant)])
      && Linked(c, rs + [r] + [MakeRecord(c, MemoryOf(rs + [r]), next, tenant)])
  {
    hide IdOf, ChainHashOf, SignedText;
    var r := MakeRecord(c, MemoryOf(rs), torn, tenant);
    var bad := MakeRecord(c, MemoryOf(rs), next, tenant);
    AppendExtends(c, rs, torn, tenant);
    AppendExtends(c, rs + [r], next, tenant);
    assert MemoryOf(rs).nextSeq == |rs| + 1 by {
      if rs != [] {
        assert LinkedAt(c, rs, |rs| - 1);
      }
    }
    assert bad.payload.seqNo == |rs| + 1;
    assert (rs + [r] + [bad])[|rs| + 1] == bad;
    assert !LinkedAt(c, rs + [r] + [bad], |rs| + 1);
  }
}
