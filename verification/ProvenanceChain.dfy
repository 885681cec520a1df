/**
 * The chain object. `lines` is the append-only file; a missing file is an empty
 * one. Locking is the subject of ProvenanceConcurrency.dfy: here the critical section
 * of append runs undisturbed, and `write` says what becomes of its line.
 */
module ProvenanceChaining {
  import opened Prelude
  import opened CodeUnits
  import opened ProvenancePayload
  import opened ProvenanceSpec
  import opened ProvenanceAppend
  import opened ProvenanceContents
  import K = KeyStoreSpec
  import KeyStoring

  datatype VerificationResult = VerificationResult(ok: bool, totalRecords: nat, verifiedRecords: int, errors: seq<VerificationError>)

  /** A torn line reached the file although writing or syncing it threw. */
  datatype Write = Landed | Lost | TornOff

  datatype AppendError = InitFailed(why: InitError) | WriteFailed

  /** Looking keys up only fills the cache, which changes no later answer. */
  lemma {:induction false} CacheIsInvisible(c: Crypto, s: K.Store, s': K.Store, fallback: Option<Text>, r: Record)
    requires K.Inv(s) && K.Inv(s') && s'.rows == s.rows && s'.kek == s.kek
    ensures CheckHmac(c, Keys(Some(s'), fallback), r) == CheckHmac(c, Keys(Some(s), fallback), r)
  {
    if r.keyId.Some? && r.keyId.value in s.rows {
      K.ResolvesExactly(s, r.keyId.value);
      K.ResolvesExactly(s', r.keyId.value);
    }
    hide CompareMac;
  }

  lemma {:induction false} SignerStaysKnown(keys: Keys, keys': Keys, signer: Signer)
    requires SignerKnown(keys', signer) && keys'.fallback == keys.fallback && (keys'.store.None? <==> keys.store.None?)
    requires keys.store.Some? ==>
      var s, s' := keys.store.value, keys'.store.value; K.Inv(s) && K.Inv(s') && s'.rows == s.rows && s'.kek == s.kek
    ensures SignerKnown(keys, signer)
  {
    if signer.Workspace? && signer.keyId in keys.store.value.rows {
      K.ResolvesExactly(keys.store.value, signer.keyId);
      K.ResolvesExactly(keys'.store.value, signer.keyId);
    }
  }

  lemma UnsignedIsKnown(keys: Keys)
    ensures SignerKnown(keys, Unsigned)
  {
  }

  lemma {:induction false} ErrorsInStep(c: Crypto, keys: Keys, rs: seq<Record>, i: nat)
    requires i < |rs|
    ensures ErrorsIn(c, keys, rs[..i + 1])
         == ErrorsIn(c, keys, rs[..i]) + LinkErrors(c, MemoryOf(rs[..i]), rs[i]) + HmacReport(c, keys, rs[i])
    ensures MemoryOf(rs[..i + 1]) == Memory(rs[i].payload.seqNo + 1, rs[i].chainHash, Some(rs[i].id), i + 1)
  {
    hide LinkErrors, HmacReport;
    assert rs[..i + 1][..i] == rs[..i];
  }

  lemma {:induction false} ParsedStep(lines: seq<Line>, i: nat)
    requires i < |lines|
    ensures Parsed(lines[..i + 1]) == Parsed(lines[..i]) + (if lines[i].Entry? then [lines[i].record] else [])
  {
    assert lines[..i + 1][..i] == lines[..i];
  }

  class ProvenanceChain {
    const crypto: Crypto
    const tenantId: Option<Text>
    const workspaceId: Option<Text>
    const keyStore: KeyStoring.KeyStore?
    const hmacKey: Option<Text>
    var lines: seq<Line>
    var nextSeq: int
    var lastChainHash: Text
    var lastId: Option<Text>
    var totalRecords: nat
    var initialized: bool

    function Mem(): Memory
      reads this
    {
      Memory(nextSeq, lastChainHash, lastId, totalRecords)
    }

    ghost function KeysNow(): Keys
      reads this, keyStore
    {
      Keys(if keyStore == null then None else Some(keyStore.Model()), hmacKey)
    }

    ghost predicate Valid()
      reads this, keyStore
    {
      && (keyStore != null ==> keyStore.Valid())
      && (!initialized ==> nextSeq == 1 && lastChainHash == GENESIS_HASH && lastId == None)
    }

    /** `keys` differs from the present keys at most in what is cached. */
    ghost predicate Compatible(keys: Keys)
      reads this, keyStore
    {
      && keys.fallback == hmacKey
      && (keys.store.Some? <==> keyStore != null)
      && (keyStore != null ==> K.Inv(keys.store.value) && keyStore.Valid()
                               && keyStore.rows == keys.store.value.rows && keyStore.kek == keys.store.value.kek)
    }

    /** The same keys, except for what is cached. */
    twostate predicate SameKeys()
      reads this, keyStore
    {
      keyStore != null ==> keyStore.Valid() && keyStore.rows == old(keyStore.rows) && keyStore.kek == old(keyStore.kek)
    }

    constructor (crypto: Crypto, lines: seq<Line>, tenantId: Option<Text>, workspaceId: Option<Text>,
                 keyStore: KeyStoring.KeyStore?, hmacKey: Option<Text>)
      requires keyStore != null ==> keyStore.Valid()
      ensures Valid() && !initialized && this.lines == lines && Mem() == FRESH_MEMORY
    {
      this.crypto, this.lines, this.tenantId, this.keyStore, this.hmacKey := crypto, lines, tenantId, keyStore, hmacKey;
      this.workspaceId := if workspaceId.Some? then workspaceId else tenantId;
      nextSeq, lastChainHash, lastId, totalRecords, initialized := 1, GENESIS_HASH, None, 0, false;
    }

    method ReadAll() returns (records: seq<Record>)
      ensures records == Parsed(lines)
    {
      records := [];
      for i := 0 to |lines|
        invariant records == Parsed(lines[..i])
      {
        ParsedStep(lines, i);
        if lines[i].Entry? {
          records := records + [lines[i].record];
        }
      }
      assert lines[..|lines|] == lines;
    }

    method VerifyHmac(r: Record) returns (check: HmacCheck)
      requires Valid()
      modifies keyStore
      ensures Valid() && SameKeys()
      ensures check == CheckHmac(crypto, old(KeysNow()), r)
    {
      if r.hmac.None? {
        return Passes;
      }
      var key: MacKey;
      if r.keyId.Some? {
        if keyStore == null {
          return Fails(NoKeyStore);
        }
        ghost var before := keyStore.Model();
        K.CachedKeepsInv(before, r.keyId.value);
        var resolved := keyStore.ResolveById(r.keyId.value);
        match resolved {
          case Missing => return Fails(KeyNotFound);
          case Throws => return Throws;
          case Found(dek, _) => key := DekKey(dek);
        }
      } else if hmacKey.Some? {
        key := SecretKey(hmacKey.value);
      } else {
        return Fails(NoKey);
      }
      var expected, stored := crypto.mac(key, SignedText(r)), FromHex(r.hmac.value);
      if |stored| != |expected| {
        return Fails(LengthMismatch);
      }
      if stored != expected {
        return Fails(Mismatch);
      }
      check := Passes;
    }

    method CheckTail(last: Record) returns (problem: Option<InitError>)
      requires Valid()
      modifies keyStore
      ensures Valid() && SameKeys()
      ensures problem == TailProblem(crypto, old(KeysNow()), last)
    {
      hide CheckHmac;
      var recomputedId := IdOf(crypto, last.payload);
      if recomputedId != last.id {
        return Some(TailIdInconsistent);
      }
      var recomputedChainHash := ChainHashOf(crypto, last.payload.previousChainHash, last.id);
      if recomputedChainHash != last.chainHash {
        return Some(TailChainHashInconsistent);
      }
      hide IdOf, ChainHashOf;
      var check := VerifyHmac(last);
      match check {
        case Fails(why) => problem := Some(TailHmac(why));
        case Throws => problem := Some(KeyUnavailable);
        case Passes => problem := None;
      }
    }

    method Init() returns (r: Result<bool, InitError>)
      requires Valid()
      modifies this`nextSeq, this`lastChainHash, this`lastId, this`totalRecords, this`initialized, keyStore
      ensures Valid() && SameKeys()
      ensures old(initialized) ==> r == Ok(false) && Mem() == old(Mem()) && initialized
      ensures !old(initialized) ==>
        match Recover(crypto, old(KeysNow()), lines)
        case Ok(m) => r == Ok(true) && initialized && Mem() == m
        case Err(e) => r == Err(e) && !initialized
    {
      if initialized {
        return Ok(false);
      }
      hide K.Inv, Recover;
      r := Load(KeysNow());
    }

    method Load(ghost keys: Keys) returns (r: Result<bool, InitError>)
      requires Valid() && !initialized && keys == KeysNow()
      modifies this`nextSeq, this`lastChainHash, this`lastId, this`totalRecords, this`initialized, keyStore
      ensures Valid() && SameKeys()
      ensures initialized <==> r == Ok(true)
      ensures Recover(crypto, keys, lines) == match r case Ok(_) => Ok(Mem()) case Err(e) => Err(e)
      ensures r.Ok? ==> r.value
    {
      hide TailProblem, K.Inv, Parsed;
      var records := ReadAll();
      if |records| == 0 && lines != [] {
        return Err(NoValidRecords);
      }
      totalRecords := |records|;
      if |records| > 0 {
        var last := records[|records| - 1];
        var problem := CheckTail(last);
        if problem.Some? {
          return Err(problem.value);
        }
        nextSeq, lastChainHash, lastId := last.payload.seqNo + 1, last.chainHash, Some(last.id);
      }
      initialized := true;
      r := Ok(true);
    }

    /** The active workspace key, else the fallback key, else no signature. */
    method PickSigner() returns (signer: Signer)
      requires Valid()
      modifies keyStore
      ensures Valid() && SameKeys()
      ensures SignerKnown(old(KeysNow()), signer)
      ensures signer == (if keyStore != null && workspaceId.Some? && workspaceId.value != []
                            && old(K.ActiveId(keyStore.rows, workspaceId.value)).Some? then
                           var k := old(K.ActiveId(keyStore.rows, workspaceId.value)).value;
                           Workspace(k, old(keyStore.rows[k].envelope.dek))
                         else if hmacKey.Some? then Fallback(hmacKey.value)
                         else Unsigned)
    {
      if keyStore != null && workspaceId.Some? && workspaceId.value != [] {
        ghost var before := keyStore.Model();
        var active := keyStore.ActiveKey(workspaceId.value);
        if active.Some? {
          K.ResolvesExactly(before, active.value.keyId);
          return Workspace(active.value.keyId, active.value.dek);
        }
      }
      signer := if hmacKey.Some? then Fallback(hmacKey.value) else Unsigned;
    }

    /** Initializes the chain if need be; then the critical section runs on its memory. */
    method Append(input: Input, timestamp: Text, write: Write) returns (r: Result<Record, AppendError>, ghost signer: Signer)
      requires Valid()
      modifies this`lines, this`nextSeq, this`lastChainHash, this`lastId, this`totalRecords, this`initialized, keyStore
      ensures Valid() && SameKeys() && SignerKnown(old(KeysNow()), signer)
      ensures match (if old(initialized) then Ok(old(Mem())) else Recover(crypto, old(KeysNow()), old(lines)))
        case Err(e) => r == Err(InitFailed(e)) && lines == old(lines) && !initialized
        case Ok(m) =>
          var made := MakeRecord(crypto, m, Job(input, timestamp, signer), tenantId);
          && initialized
          && Carries(made.payload, m, input, timestamp, tenantId)
          && r == (if write == Landed then Ok(made) else Err(WriteFailed))
          && lines == (if write == Lost then old(lines) else old(lines) + [Entry(made)])
          && Mem() == if write == Landed then AfterAppend(m, made) else m
    {
      hide Recover, SignerKnown, MakeRecord, K.Inv, Carries;
      ghost var keys := KeysNow();
      if !initialized {
        var ready := Init();
        if ready.Err? {
          signer := Unsigned;
          UnsignedIsKnown(keys);
          return Err(InitFailed(ready.error)), signer;
        }
      }
      ghost var keys' := KeysNow();
      r, signer := WriteNext(input, timestamp, write);
      SignerStaysKnown(keys, keys', signer);
    }

    /** What append does between taking and releasing the lock. */
    method WriteNext(input: Input, timestamp: Text, write: Write) returns (r: Result<Record, AppendError>, ghost signer: Signer)
      requires Valid() && initialized
      modifies this`lines, this`nextSeq, this`lastChainHash, this`lastId, this`totalRecords, keyStore
      ensures Valid() && SameKeys() && SignerKnown(old(KeysNow()), signer)
      ensures var made := MakeRecord(crypto, old(Mem()), Job(input, timestamp, signer), tenantId);
          && Carries(made.payload, old(Mem()), input, timestamp, tenantId)
          && r == (if write == Landed then Ok(made) else Err(WriteFailed))
          && lines == (if write == Lost then old(lines) else old(lines) + [Entry(made)])
          && Mem() == if write == Landed then AfterAppend(old(Mem()), made) else old(Mem())
    {
      hide PayloadText, SignedText, SignerKnown, Carries;
      var picked := PickSigner();
      signer := picked;
      RecordCarries(crypto, Mem(), Job(input, timestamp, picked), tenantId);
      var payload := MakePayload(Mem(), input, timestamp, tenantId);
      var id := IdOf(crypto, payload);
      var chainHash := ChainHashOf(crypto, lastChainHash, id);
      var record := Sign(crypto, picked, Record(payload, id, chainHash, None, None));
      if write == Lost {
        return Err(WriteFailed), signer;
      }
      lines := lines + [Entry(record)];
      if write == TornOff {
        return Err(WriteFailed), signer;
      }
      nextSeq, lastChainHash, lastId, totalRecords := payload.seqNo + 1, chainHash, Some(id), totalRecords + 1;
      r := Ok(record);
    }

    /** Fails only by looking up a key whose envelope cannot be opened. */
    method Verify() returns (r: Option<VerificationResult>)
      requires Valid()
      modifies keyStore
      ensures Valid() && SameKeys()
      ensures r.None? <==> !NoThrow(crypto, old(KeysNow()), Parsed(lines))
      ensures r.Some? ==>
        var rs := Parsed(lines);
        && r.value.errors == ErrorsIn(crypto, old(KeysNow()), rs)
        && r.value.totalRecords == |rs|
        && r.value.verifiedRecords == |rs| - |r.value.errors|
        && (r.value.ok <==> Linked(crypto, rs) && AllSigned(crypto, old(KeysNow()), rs))
    {
      hide Linked, AllSigned, K.Inv, ErrorsIn, NoThrow, CheckHmac;
      var records := ReadAll();
      ghost var keys := KeysNow();
      var errors := CheckAll(keys, records);
      if errors.None? {
        return None;
      }
      NoErrorsMeansIntact(crypto, keys, records);
      var es := errors.value;
      r := Some(VerificationResult(|es| == 0, |records|, |records| - |es|, es));
    }

    /** The loop of verify. */
    method CheckAll(ghost keys: Keys, records: seq<Record>) returns (all: Option<seq<VerificationError>>)
      requires Valid() && Compatible(keys)
      modifies keyStore
      ensures Valid() && SameKeys()
      ensures all.None? <==> !NoThrow(crypto, keys, records)
      ensures all.Some? ==> all.value == ErrorsIn(crypto, keys, records)
    {
      hide K.Inv, HmacReport, LinkErrors, CheckHmac;
      var errors := [];
      var prevChainHash, prevId, expectedSeq := GENESIS_HASH, None, 1;
      for i := 0 to |records|
        invariant Valid() && Compatible(keys) && SameKeys()
        invariant errors == ErrorsIn(crypto, keys, records[..i])
        invariant MemoryOf(records[..i]) == Memory(expectedSeq, prevChainHash, prevId, i)
        invariant NoThrow(crypto, keys, records[..i])
      {
        var rec := records[i];
        ErrorsInStep(crypto, keys, records, i);
        hide ErrorsIn, MemoryOf, Compatible;
        var found := CheckRecord(keys, rec, prevChainHash, prevId, expectedSeq, i);
        if found.None? {
          assert CheckHmac(crypto, keys, records[i]) == Throws;
          return None;
        }
        NoThrowStep(crypto, keys, records, i);
        hide NoThrow;
        errors := errors + found.value;
        prevChainHash, prevId, expectedSeq := rec.chainHash, Some(rec.id), rec.payload.seqNo + 1;
      }
      assert records[..|records|] == records;
      all := Some(errors);
    }

    /** All that verify checks of one record; nothing if its key cannot be opened. */
    method CheckRecord(ghost keys: Keys, rec: Record, prevChainHash: Text, prevId: Option<Text>, expectedSeq: int, ghost n: nat)
      returns (errors: Option<seq<VerificationError>>)
      requires Valid() && Compatible(keys)
      modifies keyStore
      ensures Valid() && Compatible(keys) && SameKeys()
      ensures errors.None? <==> CheckHmac(crypto, keys, rec) == Throws
      ensures errors.Some? ==>
        errors.value == LinkErrors(crypto, Memory(expectedSeq, prevChainHash, prevId, n), rec) + HmacReport(crypto, keys, rec)
    {
      hide CheckHmac, LinkErrors, K.Inv;
      if keyStore != null {
        CacheIsInvisible(crypto, keys.store.value, keyStore.Model(), hmacKey, rec);
        assert keys == Keys(Some(keys.store.value), hmacKey);
      }
      var found := CheckLinks(rec, prevChainHash, prevId, expectedSeq, n);
      var check := VerifyHmac(rec);
      match check {
        case Throws => errors := None;
        case Fails(why) => errors := Some(found + [VerificationError(rec.payload.seqNo, rec.id, BadHmac(why))]);
        case Passes => errors := Some(found + []);
      }
    }

    method CheckLinks(rec: Record, prevChainHash: Text, prevId: Option<Text>, expectedSeq: int, ghost n: nat)
      returns (errors: seq<VerificationError>)
      ensures errors == LinkErrors(crypto, Memory(expectedSeq, prevChainHash, prevId, n), rec)
    {
      hide IdOf, ChainHashOf, Report;
      errors := [];
      NoneYet(Report(rec, rec.payload.seqNo != expectedSeq, SeqMismatch));
      Reported(errors, rec, rec.payload.seqNo != expectedSeq, SeqMismatch);
      if rec.payload.seqNo != expectedSeq {
        errors := errors + [VerificationError(rec.payload.seqNo, rec.id, SeqMismatch)];
      }
      Reported(errors, rec, rec.payload.previousId != prevId, PreviousIdMismatch);
      if rec.payload.previousId != prevId {
        errors := errors + [VerificationError(rec.payload.seqNo, rec.id, PreviousIdMismatch)];
      }
      Reported(errors, rec, rec.payload.previousChainHash != prevChainHash, PreviousChainHashMismatch);
      if rec.payload.previousChainHash != prevChainHash {
        errors := errors + [VerificationError(rec.payload.seqNo, rec.id, PreviousChainHashMismatch)];
      }
      var expectedId := IdOf(crypto, rec.payload);
      Reported(errors, rec, expectedId != rec.id, IdMismatch);
      if expectedId != rec.id {
        errors := errors + [VerificationError(rec.payload.seqNo, rec.id, IdMismatch)];
      }
      var expectedChainHash := ChainHashOf(crypto, rec.payload.previousChainHash, rec.id);
      Reported(errors, rec, expectedChainHash != rec.chainHash, ChainHashMismatch);
      if expectedChainHash != rec.chainHash {
        errors := errors + [VerificationError(rec.payload.seqNo, rec.id, ChainHashMismatch)];
      }
    }
  }

  lemma Reported(errors: seq<VerificationError>, r: Record, bad: bool, reason: Reason)
    ensures errors + Report(r, bad, reason) ==
            if bad then errors + [VerificationError(r.payload.seqNo, r.id, reason)] else errors
  {
  }

  lemma NoneYet(errors: seq<VerificationError>)
    ensures [] + errors == errors
  {
  }

  lemma {:induction false} NoThrowStep(c: Crypto, keys: Keys, rs: seq<Record>, i: nat)
    requires i < |rs| && NoThrow(c, keys, rs[..i]) && CheckHmac(c, keys, rs[i]) != Throws
    ensures NoThrow(c, keys, rs[..i + 1])
  {
    hide CheckHmac;
    var longer := rs[..i + 1];
    forall j | 0 <= j < |longer| ensures CheckHmac(c, keys, longer[j]) != Throws {
      assert j < i ==> rs[..i][j] == longer[j];
    }
  }
}
