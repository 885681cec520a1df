/**
 * Records and keys together: which signatures still verify after the keys have
 * been rotated, archived, revoked and re-wrapped.
 */
module ProvenanceSignatures {
  import opened Prelude
  import opened CodeUnits
  import opened ProvenancePayload
  import opened ProvenanceSpec
  import opened ProvenanceAppend
  import K = KeyStoreSpec
  import L = KeyLives

  /**
   * A record signed with an openable key passes after any later key events exactly
   * when the KEK in force is the one its key was revoked under; otherwise looking
   * the key up throws.
   */
  lemma {:induction false} SignatureSurvivesExactly(c: Crypto, s: K.Store, es: seq<K.Event>, k: K.KeyId, r: Record, fallback: Option<Text>)
    requires K.Inv(s) && K.Feasible(s, es) && k in s.rows && s.rows[k].envelope.kek == s.kek
    ensures var signed := Sign(c, Workspace(k, s.rows[k].envelope.dek), r);
      CheckHmac(c, Keys(Some(K.Final(s, es)), fallback), signed)
      == (if K.Final(s, es).kek == K.KekAtRevocation(s, es, k) then Passes else Throws)
  {
    K.SurvivesExactly(s, es, k);
    var dek := s.rows[k].envelope.dek;
    var keys := Keys(Some(K.Final(s, es)), fallback);
    hide K.Inv, K.Feasible, K.Final, K.KekAtRevocation, K.Resolve;
    if SignerKnown(keys, Workspace(k, dek)) {
      SignedPasses(c, keys, Workspace(k, dek), r);
    }
  }

  /** In particular it passes as long as no KEK rotation follows the revocation of its key. */
  lemma {:induction false} SignatureSurvives(c: Crypto, s: K.Store, es: seq<K.Event>, k: K.KeyId, r: Record, fallback: Option<Text>)
    requires K.Inv(s) && K.Feasible(s, es) && k in s.rows && s.rows[k].envelope.kek == s.kek
    requires K.NoKekRotationOnceRevoked(s, es, k)
    ensures var signed := Sign(c, Workspace(k, s.rows[k].envelope.dek), r);
      CheckHmac(c, Keys(Some(K.Final(s, es)), fallback), signed) == Passes
  {
    SignatureSurvivesExactly(c, s, es, k, r, fallback);
    K.KekHoldsAfterRevocation(s, es, k);
  }

  // ---------------------------------------------------------------------------
  // A chain and its key store side by side
  // ---------------------------------------------------------------------------

  datatype Config = Config(crypto: Crypto, tenant: Option<Text>, workspace: Option<Text>, fallback: Option<Text>)

  datatype State = State(store: K.Store, file: seq<Record>)

  datatype Event = KeyEvent(e: K.Event) | Append(input: Input, timestamp: Text)

  /** The active DEK of the workspace if there is one, else the fallback key if configured. */
  ghost function SignerFor(g: Config, s: K.Store): Signer {
    if g.workspace.Some? && g.workspace.value != [] && K.ActiveId(s.rows, g.workspace.value).Some? then
      var k := K.ActiveId(s.rows, g.workspace.value).value;
      Workspace(k, s.rows[k].envelope.dek)
    else if g.fallback.Some? then Fallback(g.fallback.value)
    else Unsigned
  }

  ghost function Step(g: Config, s: State, e: Event): State {
    match e
    case KeyEvent(ke) => s.(store := K.Step(s.store, ke))
    case Append(input, timestamp) =>
      var job := Job(input, timestamp, SignerFor(g, s.store));
      s.(file := s.file + [MakeRecord(g.crypto, MemoryOf(s.file), job, g.tenant)])
  }

  ghost predicate Feasible(g: Config, s: State, es: seq<Event>)
    decreases |es|
  {
    es == [] || ((es[0].KeyEvent? ==> K.Permitted(s.store, es[0].e)) && Feasible(g, Step(g, s, es[0]), es[1..]))
  }

  ghost function Final(g: Config, s: State, es: seq<Event>): State
    decreases |es|
  {
    if es == [] then s else Final(g, Step(g, s, es[0]), es[1..])
  }

  /**
   * A record appended after any key events names the key that those events left active,
   * and carries its MAC; with no such key, that of the fallback key if there is one.
   */
  lemma {:induction false} AppendNamesTheActiveKey(g: Config, s: K.Store, es: seq<K.Event>, m: Memory, input: Input, timestamp: Text)
    requires K.Inv(s) && K.Feasible(s, es)
    ensures var s' := K.Final(s, es);
      var r := MakeRecord(g.crypto, m, Job(input, timestamp, SignerFor(g, s')), g.tenant);
      var active := if g.workspace.Some? && g.workspace.value != []
        then L.ActiveAfter(K.ActiveId(s.rows, g.workspace.value), es, g.workspace.value) else None;
      var signed := r.id + Literal("|") + r.chainHash;
      && r.keyId == active
      && (active.Some? ==> active.value in s'.rows)
      && r.hmac == (if active.Some? then Some(HexOf(g.crypto.mac(DekKey(s'.rows[active.value].envelope.dek), signed)))
                    else if g.fallback.Some? then Some(HexOf(g.crypto.mac(SecretKey(g.fallback.value), signed)))
                    else None)
  {
    assert Literal("|") == ['|' as int];
    hide K.Inv, K.Feasible, K.Final, K.OneActive, L.ActiveAfter, HexOf, IdOf, ChainHashOf, PayloadText;
    if g.workspace.Some? {
      L.ActiveFollowsEvents(s, es, g.workspace.value);
    }
  }

  /**
   * The record carries the MAC of the key it names, under that key's own DEK; one that
   * names none carries the MAC of the fallback key, or none, from before there was one.
   */
  predicate Attested(g: Config, s: K.Store, r: Record) {
    match r.keyId
    case Some(k) => k in s.rows && r.hmac == Some(HexOf(MacOf(g.crypto, DekKey(s.rows[k].envelope.dek), r)))
    case None => r.hmac.None? || (g.fallback.Some? && r.hmac == Some(HexOf(MacOf(g.crypto, SecretKey(g.fallback.value), r))))
  }

  predicate AllAttested(g: Config, s: State) {
    forall i | 0 <= i < |s.file| :: Attested(g, s.store, s.file[i])
  }

  ghost predicate Inv(g: Config, s: State) {
    K.Inv(s.store) && Linked(g.crypto, s.file) && AllAttested(g, s)
  }

  lemma {:induction false} AttestedAfterKeyEvent(g: Config, s: K.Store, e: K.Event, r: Record)
    requires K.Inv(s) && K.Permitted(s, e) && Attested(g, s, r)
    ensures Attested(g, K.Step(s, e), r)
  {
    K.StepKeepsInv(s, e);
    hide K.Step, K.Inv, SignedText;
    if r.keyId.Some? {
      assert K.RowKept(s, K.Step(s, e), r.keyId.value);
    }
  }

  lemma {:induction false} NewRecordAttested(g: Config, s: K.Store, m: Memory, input: Input, timestamp: Text)
    ensures Attested(g, s, MakeRecord(g.crypto, m, Job(input, timestamp, SignerFor(g, s)), g.tenant))
  {
    hide IdOf, ChainHashOf, PayloadText;
  }

  lemma {:induction false} StepKeepsInv(g: Config, s: State, e: Event)
    requires Inv(g, s) && (e.KeyEvent? ==> K.Permitted(s.store, e.e))
    ensures Inv(g, Step(g, s, e))
  {
    hide K.Inv, K.Step, Linked, Attested, MakeRecord, SignerFor;
    var s' := Step(g, s, e);
    match e
    case KeyEvent(ke) =>
      K.StepKeepsInv(s.store, ke);
      forall i | 0 <= i < |s'.file| ensures Attested(g, s'.store, s'.file[i]) {
        AttestedAfterKeyEvent(g, s.store, ke, s.file[i]);
      }
    case Append(input, timestamp) =>
      AppendExtends(g.crypto, s.file, Job(input, timestamp, SignerFor(g, s.store)), g.tenant);
      NewRecordAttested(g, s.store, MemoryOf(s.file), input, timestamp);
  }

  lemma {:induction false} RunsKeepInv(g: Config, s: State, es: seq<Event>)
    requires Inv(g, s) && Feasible(g, s, es)
    ensures Inv(g, Final(g, s, es))
    decreases |es|
  {
    hide Inv, Step;
    if es != [] {
      StepKeepsInv(g, s, es[0]);
      RunsKeepInv(g, Step(g, s, es[0]), es[1..]);
    }
  }

  /** The key a record names opens under the KEK in force. */
  predicate KeyOpens(s: K.Store, r: Record) {
    r.keyId.Some? ==> r.keyId.value in s.rows && s.rows[r.keyId.value].envelope.kek == s.kek
  }

  lemma {:induction false} AttestedPassesExactly(g: Config, s: K.Store, r: Record)
    requires K.Inv(s) && Attested(g, s, r)
    ensures CheckHmac(g.crypto, Keys(Some(s), g.fallback), r) == if KeyOpens(s, r) then Passes else Throws
  {
    hide SignedText;
    match r.keyId
    case Some(k) =>
      K.ResolvesExactly(s, k);
      HexRoundTrip(MacOf(g.crypto, DekKey(s.rows[k].envelope.dek), r));
    case None =>
      if g.fallback.Some? {
        HexRoundTrip(MacOf(g.crypto, SecretKey(g.fallback.value), r));
      }
  }

  /**
   * After any run of appends and key events, full verification finds every record
   * linked and signed if and only if each record's key opens under the KEK in force.
   */
  lemma {:induction false} VerifiesExactly(g: Config, s: State, es: seq<Event>)
    requires Inv(g, s) && Feasible(g, s, es)
    ensures var s' := Final(g, s, es);
      && Linked(g.crypto, s'.file)
      && (AllSigned(g.crypto, Keys(Some(s'.store), g.fallback), s'.file)
          <==> forall i | 0 <= i < |s'.file| :: KeyOpens(s'.store, s'.file[i]))
  {
    RunsKeepInv(g, s, es);
    var s' := Final(g, s, es);
    hide K.Inv, Linked, Attested, KeyOpens, CheckHmac, Final, Feasible;
    forall i | 0 <= i < |s'.file|
      ensures CheckHmac(g.crypto, Keys(Some(s'.store), g.fallback), s'.file[i])
           == if KeyOpens(s'.store, s'.file[i]) then Passes else Throws
    {
      AttestedPassesExactly(g, s'.store, s'.file[i]);
    }
  }

  /** No effective KEK rotation happens while the store holds a revoked key. */
  ghost predicate NoRotationPastRevocation(g: Config, s: State, es: seq<Event>)
    decreases |es|
  {
    es == [] ||
    (&& (es[0].KeyEvent? && K.RotatesKek(s.store, es[0].e) ==>
           forall k | k in s.store.rows :: s.store.rows[k].state != K.Revoked)
     && NoRotationPastRevocation(g, Step(g, s, es[0]), es[1..]))
  }

  ghost predicate AllRowsOpen(s: K.Store) {
    forall k | k in s.rows :: s.rows[k].envelope.kek == s.kek
  }

  lemma {:induction false} RowsStayOpen(s: K.Store, e: K.Event)
    requires K.Inv(s) && K.Permitted(s, e) && AllRowsOpen(s)
    requires K.RotatesKek(s, e) ==> forall k | k in s.rows :: s.rows[k].state != K.Revoked
    ensures AllRowsOpen(K.Step(s, e))
  {
    K.StepKeepsInv(s, e);
    if e.RotateKek? {
      K.RotateKekKeepsInv(s, e.newKek);
    }
  }

  lemma {:induction false} RowsStayOpenOverRuns(g: Config, s: State, es: seq<Event>)
    requires Inv(g, s) && Feasible(g, s, es) && AllRowsOpen(s.store) && NoRotationPastRevocation(g, s, es)
    ensures AllRowsOpen(Final(g, s, es).store)
    decreases |es|
  {
    if es != [] {
      StepKeepsInv(g, s, es[0]);
      if es[0].KeyEvent? {
        RowsStayOpen(s.store, es[0].e);
      }
      hide K.Step, K.Inv, Linked, AllAttested, AllRowsOpen, MakeRecord;
      RowsStayOpenOverRuns(g, Step(g, s, es[0]), es[1..]);
    }
  }

  /** So a chain whose operator never rotates the KEK past a revocation always verifies in full. */
  lemma {:induction false} VerifyStaysOk(g: Config, s: State, es: seq<Event>)
    requires Inv(g, s) && Feasible(g, s, es) && AllRowsOpen(s.store) && NoRotationPastRevocation(g, s, es)
    ensures var s' := Final(g, s, es);
      ErrorsIn(g.crypto, Keys(Some(s'.store), g.fallback), s'.file) == []
  {
    RowsStayOpenOverRuns(g, s, es);
    RunsKeepInv(g, s, es);
    VerifiesExactly(g, s, es);
    var s' := Final(g, s, es);
    hide Final, Feasible, NoRotationPastRevocation, K.Inv, Linked, CheckHmac;
    forall i | 0 <= i < |s'.file| ensures KeyOpens(s'.store, s'.file[i]) {
      assert Attested(g, s'.store, s'.file[i]);
    }
    NoErrorsMeansIntact(g.crypto, Keys(Some(s'.store), g.fallback), s'.file);
  }
}
