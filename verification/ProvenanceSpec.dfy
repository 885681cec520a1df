/**
 * The provenance hash chain: what a record must satisfy, what verification reports,
 * what appending builds, and why the last chain hash pins down the whole history.
 *
 * SHA-256 and HMAC are arbitrary functions here. Nothing assumes that hashing is
 * injective: where two histories differ, the results name two different texts,
 * both hashed by verification, with the same digest.
 */
module ProvenanceSpec {
  import opened Prelude
  import opened CodeUnits
  import opened JsonText
  import opened CanonicalJson
  import opened ProvenancePayload
  import K = KeyStoreSpec

  type Mac = b: K.Bytes | |b| == 32 witness seq<K.Byte>(32, _ => 0)

  datatype MacKey = DekKey(dek: K.Dek) | SecretKey(secret: Text)

  datatype Crypto = Crypto(sha: Text -> Digest, mac: (MacKey, Text) -> Mac)

  // ---------------------------------------------------------------------------
  // Hex
  // ---------------------------------------------------------------------------

  function HexOf(b: K.Bytes): Text {
    if b == [] then [] else [HexDigit(b[0] / 16), HexDigit(b[0] % 16)] + HexOf(b[1..])
  }

  /** Buffer.from(text, "hex"): decodes up to the first pair that is not hex. */
  function FromHex(t: Text): K.Bytes {
    if |t| < 2 || HexValue(t[0]) < 0 || HexValue(t[1]) < 0 then []
    else [HexValue(t[0]) * 16 + HexValue(t[1])] + FromHex(t[2..])
  }

  lemma {:induction false} HexRoundTrip(b: K.Bytes)
    ensures FromHex(HexOf(b)) == b
  {
    if b != [] {
      var t := HexOf(b);
      assert t[2..] == HexOf(b[1..]);
      HexRoundTrip(b[1..]);
      assert HexValue(t[0]) == b[0] / 16 && HexValue(t[1]) == b[0] % 16;
      assert b == [b[0]] + b[1..];
    }
  }

  // ---------------------------------------------------------------------------
  // Signatures
  // ---------------------------------------------------------------------------

  /** What the verifier can draw keys from. */
  datatype Keys = Keys(store: Option<K.Store>, fallback: Option<Text>)

  datatype HmacFailure = NoKeyStore | KeyNotFound | NoKey | LengthMismatch | Mismatch

  datatype HmacCheck = Passes | Fails(why: HmacFailure) | Throws

  function SignedText(r: Record): Text {
    r.id + ['|' as int] + r.chainHash
  }

  function MacOf(c: Crypto, key: MacKey, r: Record): Mac {
    c.mac(key, SignedText(r))
  }

  function CompareMac(c: Crypto, key: MacKey, r: Record, stored: Text): HmacCheck {
    if |FromHex(stored)| != |MacOf(c, key, r)| then Fails(LengthMismatch)
    else if FromHex(stored) != MacOf(c, key, r) then Fails(Mismatch)
    else Passes
  }

  function CheckHmac(c: Crypto, keys: Keys, r: Record): HmacCheck {
    if r.hmac.None? then Passes
    else if r.keyId.Some? then
      if keys.store.None? then Fails(NoKeyStore)
      else match K.Resolve(keys.store.value, r.keyId.value)
        case Missing => Fails(KeyNotFound)
        case Throws => Throws
        case Found(dek, _) => CompareMac(c, DekKey(dek), r, r.hmac.value)
    else if keys.fallback.Some? then CompareMac(c, SecretKey(keys.fallback.value), r, r.hmac.value)
    else Fails(NoKey)
  }

  /** The key a record is signed with: a workspace DEK, else the single fallback key. */
  datatype Signer = Workspace(keyId: K.KeyId, dek: K.Dek) | Fallback(secret: Text) | Unsigned

  function Sign(c: Crypto, signer: Signer, r: Record): Record {
    match signer
    case Workspace(k, dek) => r.(hmac := Some(HexOf(MacOf(c, DekKey(dek), r))), keyId := Some(k))
    case Fallback(secret) => r.(hmac := Some(HexOf(MacOf(c, SecretKey(secret), r))), keyId := None)
    case Unsigned => r.(hmac := None, keyId := None)
  }

  predicate SignerKnown(keys: Keys, signer: Signer) {
    match signer
    case Workspace(k, dek) => keys.store.Some? && K.Resolve(keys.store.value, k).Found? && K.Resolve(keys.store.value, k).dek == dek
    case Fallback(secret) => keys.fallback == Some(secret)
    case Unsigned => true
  }

  /** A signed record passes wherever its key resolves to the DEK that signed it. */
  lemma SignedPasses(c: Crypto, keys: Keys, signer: Signer, r: Record)
    requires SignerKnown(keys, signer)
    ensures CheckHmac(c, keys, Sign(c, signer, r)) == Passes
  {
    match signer
    case Workspace(_, dek) => HexRoundTrip(MacOf(c, DekKey(dek), r));
    case Fallback(secret) => HexRoundTrip(MacOf(c, SecretKey(secret), r));
    case Unsigned =>
  }

  /** The key that a signature is to be checked with, if it can be had. */
  function VerifyKey(keys: Keys, r: Record): Option<MacKey> {
    if r.keyId.Some? then
      if keys.store.Some? && K.Resolve(keys.store.value, r.keyId.value).Found?
      then Some(DekKey(K.Resolve(keys.store.value, r.keyId.value).dek)) else None
    else if keys.fallback.Some? then Some(SecretKey(keys.fallback.value)) else None
  }

  /**
   * A record passes exactly when it is unsigned or the key it calls for is there and its
   * MAC of id and chain hash is the one stored; otherwise the reason is the first that applies.
   */
  lemma HmacExactly(c: Crypto, keys: Keys, r: Record)
    ensures var check, key := CheckHmac(c, keys, r), VerifyKey(keys, r);
      && (check == Passes <==>
            (r.hmac.Some? ==> key.Some? && FromHex(r.hmac.value) == c.mac(key.value, r.id + Literal("|") + r.chainHash)))
      && (check == Fails(LengthMismatch) <==> r.hmac.Some? && key.Some? && |FromHex(r.hmac.value)| != 32)
      && (check == Fails(NoKey) <==> r.hmac.Some? && r.keyId.None? && keys.fallback.None?)
      && (check == Fails(NoKeyStore) <==> r.hmac.Some? && r.keyId.Some? && keys.store.None?)
      && (check == Fails(KeyNotFound) <==>
            r.hmac.Some? && r.keyId.Some? && keys.store.Some? && r.keyId.value !in keys.store.value.rows)
      && (check == Throws <==>
            r.hmac.Some? && r.keyId.Some? && keys.store.Some? && K.Resolve(keys.store.value, r.keyId.value).Throws?)
  {
    assert Literal("|") == ['|' as int];
    hide FromHex;
  }

  // ---------------------------------------------------------------------------
  // Records in a chain
  // ---------------------------------------------------------------------------

  /** The in-memory tail. */
  datatype Memory = Memory(nextSeq: int, lastChainHash: Text, lastId: Option<Text>, totalRecords: nat)

  const FRESH_MEMORY := Memory(1, GENESIS_HASH, None, 0)

  function MemoryOf(rs: seq<Record>): Memory {
    if rs == [] then FRESH_MEMORY
    else
      var last := rs[|rs| - 1];
      Memory(last.payload.seqNo + 1, last.chainHash, Some(last.id), |rs|)
  }

  function IdOf(c: Crypto, p: Payload): Digest {
    c.sha(PayloadText(p))
  }

  function ChainHashOf(c: Crypto, previousChainHash: Text, id: Text): Digest {
    c.sha(previousChainHash + id)
  }

  /** The i-th record continues the one before it and carries its own digests. */
  predicate LinkedAt(c: Crypto, rs: seq<Record>, i: nat)
    requires i < |rs|
  {
    var r := rs[i];
    && r.payload.seqNo == i + 1
    && r.payload.previousId == (if i == 0 then None else Some(rs[i - 1].id))
    && r.payload.previousChainHash == (if i == 0 then GENESIS_HASH else rs[i - 1].chainHash)
    && r.id == IdOf(c, r.payload)
    && r.chainHash == ChainHashOf(c, r.payload.previousChainHash, r.id)
  }

  predicate Linked(c: Crypto, rs: seq<Record>) {
    forall i | 0 <= i < |rs| :: LinkedAt(c, rs, i)
  }

  predicate AllPlain(rs: seq<Record>) {
    forall i | 0 <= i < |rs| :: Plain(rs[i].payload)
  }

  predicate AllSigned(c: Crypto, keys: Keys, rs: seq<Record>) {
    forall i | 0 <= i < |rs| :: CheckHmac(c, keys, rs[i]) == Passes
  }

  // ---------------------------------------------------------------------------
  // What verification reports
  // ---------------------------------------------------------------------------

  datatype Reason = SeqMismatch | PreviousIdMismatch | PreviousChainHashMismatch | IdMismatch | ChainHashMismatch | BadHmac(why: HmacFailure)

  datatype VerificationError = VerificationError(seqNo: int, id: Text, reason: Reason)

  function Report(r: Record, bad: bool, reason: Reason): seq<VerificationError> {
    if bad then [VerificationError(r.payload.seqNo, r.id, reason)] else []
  }

  function HmacReport(c: Crypto, keys: Keys, r: Record): seq<VerificationError> {
    match CheckHmac(c, keys, r)
    case Fails(why) => [VerificationError(r.payload.seqNo, r.id, BadHmac(why))]
    case _ => []
  }

  function LinkErrors(c: Crypto, m: Memory, r: Record): seq<VerificationError> {
    Report(r, r.payload.seqNo != m.nextSeq, SeqMismatch)
    + Report(r, r.payload.previousId != m.lastId, PreviousIdMismatch)
    + Report(r, r.payload.previousChainHash != m.lastChainHash, PreviousChainHashMismatch)
    + Report(r, IdOf(c, r.payload) != r.id, IdMismatch)
    + Report(r, ChainHashOf(c, r.payload.previousChainHash, r.id) != r.chainHash, ChainHashMismatch)
  }

  function ErrorsIn(c: Crypto, keys: Keys, rs: seq<Record>): seq<VerificationError> {
    if rs == [] then []
    else
      var n := |rs| - 1;
      ErrorsIn(c, keys, rs[..n]) + LinkErrors(c, MemoryOf(rs[..n]), rs[n]) + HmacReport(c, keys, rs[n])
  }

  predicate NoThrow(c: Crypto, keys: Keys, rs: seq<Record>) {
    forall i | 0 <= i < |rs| :: CheckHmac(c, keys, rs[i]) != Throws
  }

  lemma LinkErrorsMeaning(c: Crypto, m: Memory, r: Record)
    ensures LinkErrors(c, m, r) == [] <==>
      && r.payload.seqNo == m.nextSeq && r.payload.previousId == m.lastId
      && r.payload.previousChainHash == m.lastChainHash
      && r.id == IdOf(c, r.payload) && r.chainHash == ChainHashOf(c, r.payload.previousChainHash, r.id)
  {
    hide IdOf, ChainHashOf;
    var errors := LinkErrors(c, m, r);
    assert |errors| == 0 <==> errors == [];
  }

  lemma {:induction false} LinkedSplit(c: Crypto, rs: seq<Record>, r: Record)
    ensures Linked(c, rs + [r]) <==> Linked(c, rs) && LinkedAt(c, rs + [r], |rs|)
  {
    hide IdOf, ChainHashOf;
    forall i: nat | i < |rs| ensures LinkedAt(c, rs + [r], i) <==> LinkedAt(c, rs, i) {
    }
    hide LinkedAt;
    if Linked(c, rs + [r]) {
      forall i: nat | i < |rs| ensures LinkedAt(c, rs, i) {
        assert LinkedAt(c, rs + [r], i);
      }
      assert LinkedAt(c, rs + [r], |rs|);
    }
  }

  lemma {:induction false} LastLinked(c: Crypto, rs: seq<Record>, r: Record)
    requires Linked(c, rs)
    ensures LinkedAt(c, rs + [r], |rs|) <==> LinkErrors(c, MemoryOf(rs), r) == []
  {
    LinkErrorsMeaning(c, MemoryOf(rs), r);
    hide IdOf, ChainHashOf, LinkErrors;
    if rs != [] {
      assert LinkedAt(c, rs, |rs| - 1);
      assert (rs + [r])[|rs| - 1] == rs[|rs| - 1];
    }
  }

  /** Verification reports nothing exactly when the chain is linked and every signature passes. */
  lemma {:induction false} NoErrorsMeansIntact(c: Crypto, keys: Keys, rs: seq<Record>)
    requires NoThrow(c, keys, rs)
    ensures ErrorsIn(c, keys, rs) == [] <==> Linked(c, rs) && AllSigned(c, keys, rs)
  {
    hide CheckHmac, LinkErrors, LinkedAt;
    if rs != [] {
      var n := |rs| - 1;
      var init, r := rs[..n], rs[n];
      assert rs == init + [r];
      NoErrorsMeansIntact(c, keys, init);
      LinkedSplit(c, init, r);
      if Linked(c, init) {
        LastLinked(c, init, r);
      }
      hide Linked;
      assert AllSigned(c, keys, rs) <==> AllSigned(c, keys, init) && CheckHmac(c, keys, r) == Passes;
      assert CheckHmac(c, keys, r) != Throws;
    }
  }

  // ---------------------------------------------------------------------------
  // Exactly what is reported
  // ---------------------------------------------------------------------------

  /** What is wrong with the i-th record, by reason, told from the records themselves. */
  predicate Wrong(c: Crypto, keys: Keys, rs: seq<Record>, i: nat, reason: Reason)
    requires i < |rs|
  {
    var r := rs[i];
    match reason
    case SeqMismatch => r.payload.seqNo != if i == 0 then 1 else rs[i - 1].payload.seqNo + 1
    case PreviousIdMismatch => r.payload.previousId != if i == 0 then None else Some(rs[i - 1].id)
    case PreviousChainHashMismatch => r.payload.previousChainHash != if i == 0 then Zeros(64) else rs[i - 1].chainHash
    case IdMismatch => r.id != c.sha(PayloadText(r.payload))
    case ChainHashMismatch => r.chainHash != c.sha(r.payload.previousChainHash + r.id)
    case BadHmac(why) => CheckHmac(c, keys, r) == Fails(why)
  }

  predicate Names(e: VerificationError, rs: seq<Record>, i: nat)
    requires i < |rs|
  {
    e.seqNo == rs[i].payload.seqNo && e.id == rs[i].id
  }

  lemma LinkErrorsExactly(c: Crypto, m: Memory, r: Record, e: VerificationError)
    ensures e in LinkErrors(c, m, r) <==>
      && e.seqNo == r.payload.seqNo && e.id == r.id
      && match e.reason
         case SeqMismatch => r.payload.seqNo != m.nextSeq
         case PreviousIdMismatch => r.payload.previousId != m.lastId
         case PreviousChainHashMismatch => r.payload.previousChainHash != m.lastChainHash
         case IdMismatch => r.id != IdOf(c, r.payload)
         case ChainHashMismatch => r.chainHash != ChainHashOf(c, r.payload.previousChainHash, r.id)
         case BadHmac(_) => false
  {
    hide IdOf, ChainHashOf;
  }

  /**
   * Verification reports an error of a record and a reason exactly when that is wrong
   * with that record: nothing is missed, invented or given another reason.
   */
  lemma {:induction false} ErrorsInExactly(c: Crypto, keys: Keys, rs: seq<Record>, e: VerificationError)
    ensures e in ErrorsIn(c, keys, rs) <==> exists i | 0 <= i < |rs| :: Names(e, rs, i) && Wrong(c, keys, rs, i, e.reason)
  {
    hide CheckHmac, LinkErrors, PayloadText;
    if rs != [] {
      var n := |rs| - 1;
      ErrorsInExactly(c, keys, rs[..n], e);
      forall i | 0 <= i < n ensures Names(e, rs, i) && Wrong(c, keys, rs, i, e.reason) <==>
                                    Names(e, rs[..n], i) && Wrong(c, keys, rs[..n], i, e.reason) {
      }
      LastErrorsExactly(c, keys, rs, e);
    }
  }

  lemma {:induction false} LastErrorsExactly(c: Crypto, keys: Keys, rs: seq<Record>, e: VerificationError)
    requires rs != []
    ensures var n := |rs| - 1;
      e in LinkErrors(c, MemoryOf(rs[..n]), rs[n]) + HmacReport(c, keys, rs[n]) <==>
      Names(e, rs, n) && Wrong(c, keys, rs, n, e.reason)
  {
    hide CheckHmac, LinkErrors, PayloadText;
    var n := |rs| - 1;
    LinkErrorsExactly(c, MemoryOf(rs[..n]), rs[n], e);
  }

  // ---------------------------------------------------------------------------
  // Tamper evidence
  // ---------------------------------------------------------------------------

  /** The texts verification hashes for the i-th record. */
  predicate HashedAt(rs: seq<Record>, i: nat, x: Text)
    requires i < |rs|
  {
    x == PayloadText(rs[i].payload) || x == rs[i].payload.previousChainHash + rs[i].id
  }

  ghost predicate HashedBy(rs: seq<Record>, x: Text) {
    exists i: nat :: i < |rs| && HashedAt(rs, i, x)
  }

  /** Two different texts, one hashed for each chain, with the same digest. */
  ghost predicate CollisionBetween(c: Crypto, rs: seq<Record>, qs: seq<Record>) {
    exists x, y :: HashedBy(rs, x) && HashedBy(qs, y) && x != y && c.sha(x) == c.sha(y)
  }

  predicate SameRecord(r: Record, q: Record) {
    Agree(r.payload, q.payload) && r.id == q.id && r.chainHash == q.chainHash
  }

  /** If the last records share a chain hash, they agree and so do the hashes before them. */
  lemma {:induction false} LastRecordPinned(c: Crypto, rs: seq<Record>, qs: seq<Record>)
    requires rs != [] && qs != []
    requires LinkedAt(c, rs, |rs| - 1) && LinkedAt(c, qs, |qs| - 1)
    requires Plain(rs[|rs| - 1].payload) && Plain(qs[|qs| - 1].payload)
    requires |rs| > 1 ==> |rs[|rs| - 2].chainHash| == 64
    requires |qs| > 1 ==> |qs[|qs| - 2].chainHash| == 64
    requires rs[|rs| - 1].chainHash == qs[|qs| - 1].chainHash
    ensures CollisionBetween(c, rs, qs) || SameRecord(rs[|rs| - 1], qs[|qs| - 1])
  {
    var r, q := rs[|rs| - 1], qs[|qs| - 1];
    LastDigests(c, rs);
    LastDigests(c, qs);
    hide LinkedAt, IdOf, ChainHashOf, PayloadText, Agree, Plain, HashedBy, CollisionBetween;
    var x, y := r.payload.previousChainHash + r.id, q.payload.previousChainHash + q.id;
    if x == y {
      SplitAt(r.payload.previousChainHash, r.id, q.payload.previousChainHash, q.id);
      if PayloadText(r.payload) == PayloadText(q.payload) {
        PayloadTextDetermines(r.payload, q.payload);
      } else {
        LastCollide(c, rs, qs, PayloadText(r.payload), PayloadText(q.payload));
      }
    } else {
      LastCollide(c, rs, qs, x, y);
    }
  }

  lemma LastDigests(c: Crypto, rs: seq<Record>)
    requires rs != [] && LinkedAt(c, rs, |rs| - 1)
    requires |rs| > 1 ==> |rs[|rs| - 2].chainHash| == 64
    ensures var r := rs[|rs| - 1];
      && |r.payload.previousChainHash| == 64
      && r.id == c.sha(PayloadText(r.payload))
      && r.chainHash == c.sha(r.payload.previousChainHash + r.id)
  {
    hide PayloadText;
  }

  lemma LastCollide(c: Crypto, rs: seq<Record>, qs: seq<Record>, x: Text, y: Text)
    requires rs != [] && qs != [] && HashedAt(rs, |rs| - 1, x) && HashedAt(qs, |qs| - 1, y)
    requires x != y && c.sha(x) == c.sha(y)
    ensures CollisionBetween(c, rs, qs)
  {
    hide HashedAt;
    assert HashedBy(rs, x) && HashedBy(qs, y);
  }

  lemma {:induction false} ShorterCollides(c: Crypto, rs: seq<Record>, qs: seq<Record>, m: nat, n: nat)
    requires m <= |rs| && n <= |qs| && CollisionBetween(c, rs[..m], qs[..n])
    ensures CollisionBetween(c, rs, qs)
  {
    hide HashedAt;
    var x, y :| HashedBy(rs[..m], x) && HashedBy(qs[..n], y) && x != y && c.sha(x) == c.sha(y);
    var i: nat :| i < |rs[..m]| && HashedAt(rs[..m], i, x);
    var j: nat :| j < |qs[..n]| && HashedAt(qs[..n], j, y);
    HashedInPrefix(rs, m, i, x);
    HashedInPrefix(qs, n, j, y);
  }

  lemma HashedInPrefix(rs: seq<Record>, m: nat, i: nat, x: Text)
    requires i < m <= |rs| && HashedAt(rs[..m], i, x)
    ensures HashedAt(rs, i, x)
  {
  }

  lemma {:induction false} PrefixLinked(c: Crypto, rs: seq<Record>)
    requires rs != [] && Linked(c, rs)
    ensures Linked(c, rs[..|rs| - 1]) && LinkedAt(c, rs, |rs| - 1)
    ensures rs[|rs| - 1].payload.seqNo == |rs|
    ensures |rs| > 1 ==> |rs[|rs| - 2].chainHash| == 64
    ensures |rs| > 1 ==> rs[|rs| - 1].payload.previousChainHash == rs[|rs| - 2].chainHash
  {
    assert rs == rs[..|rs| - 1] + [rs[|rs| - 1]];
    LinkedSplit(c, rs[..|rs| - 1], rs[|rs| - 1]);
    if |rs| > 1 {
      assert LinkedAt(c, rs, |rs| - 2);
    }
  }

  /**
   * Two non-empty linked chains that end in the same chain hash have the same
   * length and the same records, payload field by payload field, unless their
   * verification hashes two different texts to the same digest.
   */
  lemma {:induction false} TamperEvidence(c: Crypto, rs: seq<Record>, qs: seq<Record>)
    requires Linked(c, rs) && Linked(c, qs) && AllPlain(rs) && AllPlain(qs)
    requires rs != [] && qs != [] && rs[|rs| - 1].chainHash == qs[|qs| - 1].chainHash
    ensures
      || CollisionBetween(c, rs, qs)
      || (|rs| == |qs| && forall i | 0 <= i < |rs| :: SameRecord(rs[i], qs[i]))
    decreases |rs|
  {
    var m, n := |rs| - 1, |qs| - 1;
    hide IdOf, ChainHashOf, CollisionBetween, Plain, Linked, LinkedAt, Agree;
    PrefixLinked(c, rs);
    PrefixLinked(c, qs);
    LastRecordPinned(c, rs, qs);
    if !CollisionBetween(c, rs, qs) {
      AgreeOnLinks(rs[m].payload, qs[n].payload);
      if m > 0 {
        TamperEvidence(c, rs[..m], qs[..n]);
        if CollisionBetween(c, rs[..m], qs[..n]) {
          ShorterCollides(c, rs, qs, m, n);
        }
        forall i | 0 <= i < |rs| ensures SameRecord(rs[i], qs[i]) {
          if i < m {
            assert rs[..m][i] == rs[i] && qs[..n][i] == qs[i];
          }
        }
      }
    }
  }

  /**
   * What verification cannot see: a payload that agrees with the one in the file, as far
   * as canonical printing shows it, takes its place without any error.
   */
  lemma {:induction false} AgreeingChangeIsUnseen(c: Crypto, keys: Keys, rs: seq<Record>, i: nat, q: Payload)
    requires i < |rs| && Plain(rs[i].payload) && Plain(q) && Agree(rs[i].payload, q)
    ensures var qs := rs[i := rs[i].(payload := q)];
      && (Linked(c, qs) <==> Linked(c, rs))
      && (AllSigned(c, keys, qs) <==> AllSigned(c, keys, rs))
      && qs[|qs| - 1].chainHash == rs[|rs| - 1].chainHash
  {
    hide PayloadText, ChainHashOf, Plain, Agree, CheckHmac, LinkedAt;
    var qs := rs[i := rs[i].(payload := q)];
    PayloadTextDetermines(rs[i].payload, q);
    AgreeOnLinks(rs[i].payload, q);
    forall k | 0 <= k < |rs| ensures LinkedAt(c, qs, k) <==> LinkedAt(c, rs, k) {
      LinkUnseen(c, rs, i, q, k);
    }
    forall k | 0 <= k < |rs| ensures CheckHmac(c, keys, qs[k]) == CheckHmac(c, keys, rs[k]) {
      if k == i {
        HmacIgnoresPayload(c, keys, rs[i], q);
      }
    }
  }

  lemma LinkUnseen(c: Crypto, rs: seq<Record>, i: nat, q: Payload, k: nat)
    requires i < |rs| && k < |rs| && IdOf(c, q) == IdOf(c, rs[i].payload)
    requires q.seqNo == rs[i].payload.seqNo && q.previousId == rs[i].payload.previousId
    requires q.previousChainHash == rs[i].payload.previousChainHash
    ensures LinkedAt(c, rs[i := rs[i].(payload := q)], k) <==> LinkedAt(c, rs, k)
  {
    hide IdOf, ChainHashOf;
    var qs := rs[i := rs[i].(payload := q)];
    assert k > 0 ==> qs[k - 1].id == rs[k - 1].id && qs[k - 1].chainHash == rs[k - 1].chainHash;
  }

  lemma HmacIgnoresPayload(c: Crypto, keys: Keys, r: Record, q: Payload)
    ensures CheckHmac(c, keys, r.(payload := q)) == CheckHmac(c, keys, r)
  {
    hide K.Resolve;
    assert SignedText(r.(payload := q)) == SignedText(r);
  }

  /**
   * There is such a change: a member called __proto__, whatever its value, put into the
   * metadata of any record of a chain that verifies. The chain verifies as before and ends
   * in the same hash, and its metadata are not what was written.
   */
  lemma {:induction false} ProtoTamperIsUnseen(c: Crypto, keys: Keys, rs: seq<Record>, i: nat, fs: seq<Field>, x: Json)
    requires i < |rs| && Plain(rs[i].payload) && rs[i].payload.metadata == Some(Obj(fs))
    requires WellFormed(x) && PROTO !in KeySet(fs)
    ensures var q := rs[i].payload.(metadata := Some(Obj([Field(PROTO, x)] + fs)));
      var qs := rs[i := rs[i].(payload := q)];
      && (Linked(c, qs) <==> Linked(c, rs))
      && (AllSigned(c, keys, qs) <==> AllSigned(c, keys, rs))
      && qs[|qs| - 1].chainHash == rs[|rs| - 1].chainHash
      && !AgreeInFull(rs[i].payload, q)
  {
    MetadataAt(rs[i].payload);
    assert WellFormed(ValueAt(rs[i].payload, 12).value);
    hide Plain, ValueAt, Meaning, Shown, WellFormed, Linked, AllSigned, AgreeInFull;
    WellFormedProto(fs, x);
    ProtoIsUnseen(fs, x);
    MetadataTamperIsUnseen(c, keys, rs, i, Obj([Field(PROTO, x)] + fs));
  }

  /** Another is a number that overflows where there was a null. */
  lemma {:induction false} OverflowTamperIsUnseen(c: Crypto, keys: Keys, rs: seq<Record>, i: nat, key: Text, name: Text, fs: seq<Field>)
    requires i < |rs| && Plain(rs[i].payload) && rs[i].payload.metadata == Some(Obj([Field(key, Null)] + fs))
    requires key != PROTO
    ensures var q := rs[i].payload.(metadata := Some(Obj([Field(key, NonFinite(name))] + fs)));
      var qs := rs[i := rs[i].(payload := q)];
      && (Linked(c, qs) <==> Linked(c, rs))
      && (AllSigned(c, keys, qs) <==> AllSigned(c, keys, rs))
      && qs[|qs| - 1].chainHash == rs[|rs| - 1].chainHash
      && !AgreeInFull(rs[i].payload, q)
  {
    MetadataAt(rs[i].payload);
    assert WellFormed(ValueAt(rs[i].payload, 12).value);
    hide Plain, ValueAt, Meaning, Shown, WellFormed, Linked, AllSigned, AgreeInFull, CanonicalJson.CanonicalJson;
    OverflowIsUnseen(fs, key, name);
    MetadataTamperIsUnseen(c, keys, rs, i, Obj([Field(key, NonFinite(name))] + fs));
  }

  /** Metadata can be replaced unseen by any that show the same. */
  lemma {:induction false} MetadataTamperIsUnseen(c: Crypto, keys: Keys, rs: seq<Record>, i: nat, m: Json)
    requires i < |rs| && Plain(rs[i].payload) && rs[i].payload.metadata.Some? && WellFormed(m)
    requires Shown(m) == Shown(rs[i].payload.metadata.value) && Meaning(m) != Meaning(rs[i].payload.metadata.value)
    ensures var q := rs[i].payload.(metadata := Some(m));
      var qs := rs[i := rs[i].(payload := q)];
      && (Linked(c, qs) <==> Linked(c, rs))
      && (AllSigned(c, keys, qs) <==> AllSigned(c, keys, rs))
      && qs[|qs| - 1].chainHash == rs[|rs| - 1].chainHash
      && !AgreeInFull(rs[i].payload, q)
  {
    var p := rs[i].payload;
    var q := p.(metadata := Some(m));
    ShownMetadataAgrees(p, m);
    hide Plain, Agree, ValueAt, Meaning, Shown, Linked, AllSigned;
    AgreeingChangeIsUnseen(c, keys, rs, i, q);
    MetadataAt(p);
    MetadataAt(q);
    assert MeaningAt(p, 12) != MeaningAt(q, 12);
  }

  lemma MetadataAt(p: Payload)
    ensures |KEYS| == 14 && ValueAt(p, 12) == p.metadata
  {
  }

  lemma ShownMetadataAgrees(p: Payload, m: Json)
    requires Plain(p) && p.metadata.Some? && WellFormed(m) && Shown(m) == Shown(p.metadata.value)
    ensures var q := p.(metadata := Some(m)); Plain(q) && Agree(p, q)
  {
    var q := p.(metadata := Some(m));
    MetadataAt(p);
    hide WellFormed, Shown, KEYS;
    forall k | 0 <= k < |KEYS| ensures ShownAt(q, k) == ShownAt(p, k) {
    }
    forall k | 0 <= k < |KEYS| && ValueAt(q, k).Some? ensures WellFormed(ValueAt(q, k).value) {
      assert k != 12 ==> ValueAt(q, k) == ValueAt(p, k);
    }
  }

  lemma WellFormedProto(fs: seq<Field>, x: Json)
    requires WellFormed(Obj(fs)) && WellFormed(x) && PROTO !in KeySet(fs)
    ensures var gs := [Field(PROTO, x)] + fs;
      WellFormedFields(fs) && WellFormed(Obj(gs)) && Shown(Obj(gs)) == Shown(Obj(fs))
  {
    hide WellFormed, Shown;
    var gs := [Field(PROTO, x)] + fs;
    assert gs[1..] == fs;
    FieldsOf(fs);
    FieldsOf(gs);
    ObjShown(fs);
    ObjShown(gs);
  }

  lemma FieldsOf(fs: seq<Field>)
    ensures WellFormed(Obj(fs)) <==> WellFormedFields(fs)
  {
  }

  predicate AllLossless(rs: seq<Record>) {
    forall i | 0 <= i < |rs| :: LosslessIn(rs[i].payload)
  }

  /**
   * Where no record has such a member or number, tamper evidence is agreement on every
   * field as values.
   */
  lemma {:induction false} TamperEvidenceInFull(c: Crypto, rs: seq<Record>, qs: seq<Record>)
    requires Linked(c, rs) && Linked(c, qs) && AllPlain(rs) && AllPlain(qs) && AllLossless(rs) && AllLossless(qs)
    requires rs != [] && qs != [] && rs[|rs| - 1].chainHash == qs[|qs| - 1].chainHash
    ensures
      || CollisionBetween(c, rs, qs)
      || (|rs| == |qs| && forall i | 0 <= i < |rs| :: SameRecord(rs[i], qs[i]) && AgreeInFull(rs[i].payload, qs[i].payload))
  {
    hide CollisionBetween, Plain, Linked, Agree, LosslessIn, AgreeInFull;
    TamperEvidence(c, rs, qs);
    if !CollisionBetween(c, rs, qs) {
      forall i | 0 <= i < |rs| ensures AgreeInFull(rs[i].payload, qs[i].payload) {
        assert SameRecord(rs[i], qs[i]);
        AgreeMeansInFull(rs[i].payload, qs[i].payload);
      }
    }
  }

  lemma AgreeOnLinks(p: Payload, q: Payload)
    requires Agree(p, q)
    ensures p.seqNo == q.seqNo && p.previousId == q.previousId && p.previousChainHash == q.previousChainHash
  {
  }

  /** The same for two chains that verify accepts, whatever keys each was verified with. */
  lemma {:induction false} AcceptedChainsAgree(c: Crypto, keys: Keys, keys': Keys, rs: seq<Record>, qs: seq<Record>)
    requires NoThrow(c, keys, rs) && NoThrow(c, keys', qs)
    requires ErrorsIn(c, keys, rs) == [] && ErrorsIn(c, keys', qs) == []
    requires AllPlain(rs) && AllPlain(qs)
    requires rs != [] && qs != [] && rs[|rs| - 1].chainHash == qs[|qs| - 1].chainHash
    ensures
      || CollisionBetween(c, rs, qs)
      || (|rs| == |qs| && forall i | 0 <= i < |rs| :: SameRecord(rs[i], qs[i]))
  {
    hide CollisionBetween, SameRecord, Linked, AllSigned, ErrorsIn, NoThrow, AllPlain;
    NoErrorsMeansIntact(c, keys, rs);
    NoErrorsMeansIntact(c, keys', qs);
    TamperEvidence(c, rs, qs);
  }
}
