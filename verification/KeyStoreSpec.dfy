/**
 * The workspace key store: data-encryption keys (DEKs) wrapped under a key-encryption
 * key (KEK), their life cycle, and which of them can still be recovered.
 *
 * AES-256-GCM is symbolic: an envelope remembers the KEK it was made with, opens
 * under that KEK only, and opening it under another one throws.
 */
module KeyStoreSpec {
  import opened Prelude
  import opened CodeUnits

  type Byte = b: int | 0 <= b < 256
  type Bytes = seq<Byte>
  type KeyId = Text
  type Dek = Bytes

  const KEK_BYTES := 32

  datatype Envelope = Envelope(dek: Dek, kek: Bytes)

  function WrapDek(dek: Dek, kek: Bytes): Envelope {
    Envelope(dek, kek)
  }

  function UnwrapDek(env: Envelope, kek: Bytes): Option<Dek> {
    if env.kek == kek then Some(env.dek) else None
  }

  datatype KeyState = Active | Rotating | Archived | Revoked

  datatype Row = Row(
    workspaceId: Text,
    state: KeyState,
    envelope: Envelope,
    createdAt: int,
    rotatedAt: Option<int>,
    revokedAt: Option<int>)

  type Rows = map<KeyId, Row>

  /** The table, the KEK in force and the cache of opened DEKs. */
  datatype Store = Store(rows: Rows, kek: Bytes, cache: map<KeyId, Dek>)

  // ---------------------------------------------------------------------------
  // Lookups
  // ---------------------------------------------------------------------------

  predicate IsActive(rows: Rows, k: KeyId, ws: Text) {
    k in rows && rows[k].workspaceId == ws && rows[k].state == Active
  }

  ghost function ActiveId(rows: Rows, ws: Text): (r: Option<KeyId>)
    ensures r.Some? ==> IsActive(rows, r.value, ws)
    ensures r.None? ==> forall k :: !IsActive(rows, k, ws)
  {
    if exists k :: IsActive(rows, k, ws) then
      var k :| IsActive(rows, k, ws);
      Some(k)
    else None
  }

  datatype Resolution = Missing | Found(dek: Dek, state: KeyState) | Throws

  /** The DEK of a row: from the cache, or by opening its envelope. */
  function OpenRow(s: Store, k: KeyId): Option<Dek>
    requires k in s.rows
  {
    if k in s.cache then Some(s.cache[k]) else UnwrapDek(s.rows[k].envelope, s.kek)
  }

  function Resolve(s: Store, k: KeyId): Resolution {
    if k !in s.rows then Missing
    else match OpenRow(s, k)
      case Some(dek) => Found(dek, s.rows[k].state)
      case None => Throws
  }

  /** Opening a row remembers the result. */
  function Cached(s: Store, k: KeyId): Store {
    if k in s.rows && OpenRow(s, k).Some? then s.(cache := s.cache[k := OpenRow(s, k).value]) else s
  }

  // ---------------------------------------------------------------------------
  // Steps
  // ---------------------------------------------------------------------------

  function Inserted(s: Store, ws: Text, id: KeyId, dek: Dek, now: int): Store {
    s.(rows := s.rows[id := Row(ws, Active, WrapDek(dek, s.kek), now, None, None)], cache := s.cache[id := dek])
  }

  ghost function ProvisionStep(s: Store, ws: Text, id: KeyId, dek: Dek, now: int): Store {
    if ActiveId(s.rows, ws).Some? then s else Inserted(s, ws, id, dek, now)
  }

  function Retired(s: Store, k: KeyId, now: int): Store
    requires k in s.rows
  {
    s.(rows := s.rows[k := s.rows[k].(state := Rotating, rotatedAt := Some(now))])
  }

  /** The transaction fails, changing nothing, when the outgoing key cannot be opened. */
  ghost function RotateStep(s: Store, ws: Text, id: KeyId, dek: Dek, now: int): Store {
    match ActiveId(s.rows, ws)
    case None => Inserted(s, ws, id, dek, now)
    case Some(prev) =>
      if OpenRow(s, prev).None? then s
      else Inserted(Cached(Retired(s, prev, now), prev), ws, id, dek, now)
  }

  function ArchiveStep(s: Store, k: KeyId): Store {
    if k in s.rows && s.rows[k].state == Rotating then s.(rows := s.rows[k := s.rows[k].(state := Archived)]) else s
  }

  predicate PastOverlap(r: Row, ws: Text, cutoff: int) {
    r.workspaceId == ws && r.state == Rotating && r.rotatedAt.Some? && r.rotatedAt.value <= cutoff
  }

  function ArchiveOverlappedStep(s: Store, ws: Text, cutoff: int): Store {
    s.(rows := map k | k in s.rows :: if PastOverlap(s.rows[k], ws, cutoff) then s.rows[k].(state := Archived) else s.rows[k])
  }

  predicate AllOpen(rows: Rows, kek: Bytes) {
    forall k | k in rows && rows[k].state != Revoked :: UnwrapDek(rows[k].envelope, kek).Some?
  }

  function Rewrapped(r: Row, oldKek: Bytes, newKek: Bytes): Row {
    match UnwrapDek(r.envelope, oldKek)
    case Some(dek) => if r.state == Revoked then r else r.(envelope := WrapDek(dek, newKek))
    case None => r
  }

  /** Every row that is not revoked moves to the new KEK, or nothing changes at all. */
  function RotateKekStep(s: Store, newKek: Bytes): Store {
    if |newKek| != KEK_BYTES || !AllOpen(s.rows, s.kek) then s
    else Store(map k | k in s.rows :: Rewrapped(s.rows[k], s.kek, newKek), newKek, map[])
  }

  function RevokeStep(s: Store, k: KeyId, now: int): Store {
    if k in s.rows && s.rows[k].state != Revoked
    then s.(rows := s.rows[k := s.rows[k].(state := Revoked, revokedAt := Some(now))])
    else s
  }

  datatype Event =
    | Provision(ws: Text, id: KeyId, dek: Dek, now: int)
    | Rotate(ws: Text, id: KeyId, dek: Dek, now: int)
    | Archive(key: KeyId)
    | ArchiveOverlapped(ws: Text, cutoff: int)
    | RotateKek(newKek: Bytes)
    | Revoke(key: KeyId, now: int)
    | Lookup(key: KeyId)
    | Reopen(kek: Bytes)

  /** The KEK opens every row that is not revoked. */
  ghost predicate OpensUnder(rows: Rows, kek: Bytes) {
    |kek| == KEK_BYTES && forall k | k in rows :: rows[k].state == Revoked || rows[k].envelope.kek == kek
  }

  /** A restarted daemon opens the same table with an empty cache, under the KEK it is given. */
  function Reopened(s: Store, kek: Bytes): Store {
    Store(s.rows, kek, map[])
  }

  /**
   * Key ids come from randomUUID, which never repeats one; and the table is reopened
   * under a KEK it can be used with.
   */
  ghost predicate Permitted(s: Store, e: Event) {
    && ((e.Provision? || e.Rotate?) ==> e.id !in s.rows)
    && (e.Reopen? ==> OpensUnder(s.rows, e.kek))
  }

  ghost function Step(s: Store, e: Event): Store {
    match e
    case Provision(ws, id, dek, now) => ProvisionStep(s, ws, id, dek, now)
    case Rotate(ws, id, dek, now) => RotateStep(s, ws, id, dek, now)
    case Archive(k) => ArchiveStep(s, k)
    case ArchiveOverlapped(ws, cutoff) => ArchiveOverlappedStep(s, ws, cutoff)
    case RotateKek(newKek) => RotateKekStep(s, newKek)
    case Revoke(k, now) => RevokeStep(s, k, now)
    case Lookup(k) => Cached(s, k)
    case Reopen(kek) => Reopened(s, kek)
  }

  ghost predicate Feasible(s: Store, es: seq<Event>)
    decreases |es|
  {
    es == [] || (Permitted(s, es[0]) && Feasible(Step(s, es[0]), es[1..]))
  }

  ghost function Final(s: Store, es: seq<Event>): Store
    decreases |es|
  {
    if es == [] then s else Final(Step(s, es[0]), es[1..])
  }

  // ---------------------------------------------------------------------------
  // Invariant
  // ---------------------------------------------------------------------------

  ghost predicate OneActive(rows: Rows) {
    forall ws, j, k :: IsActive(rows, j, ws) && IsActive(rows, k, ws) ==> j == k
  }

  /** A row that is not revoked opens under the KEK in force. */
  ghost predicate LiveRowsOpen(s: Store) {
    forall k | k in s.rows :: s.rows[k].state == Revoked || s.rows[k].envelope.kek == s.kek
  }

  /** A cached DEK is the one in the row's envelope, and the envelope still opens. */
  ghost predicate CacheTrue(s: Store) {
    forall k | k in s.cache :: k in s.rows && s.cache[k] == s.rows[k].envelope.dek && s.rows[k].envelope.kek == s.kek
  }

  ghost predicate Inv(s: Store) {
    |s.kek| == KEK_BYTES && OneActive(s.rows) && LiveRowsOpen(s) && CacheTrue(s)
  }

  predicate Transition(a: KeyState, b: KeyState) {
    a == b || b == Revoked || (a == Active && b == Rotating) || (a == Rotating && b == Archived)
  }

  /** What any step does to a row that exists: it stays, keeps its DEK, and only moves forward. */
  ghost predicate RowKept(s: Store, s': Store, k: KeyId) {
    k in s.rows ==>
      && k in s'.rows
      && s'.rows[k].envelope.dek == s.rows[k].envelope.dek
      && s'.rows[k].workspaceId == s.rows[k].workspaceId
      && Transition(s.rows[k].state, s'.rows[k].state)
      && (s.rows[k].state == Revoked ==> s'.rows[k].envelope == s.rows[k].envelope)
      && (s.rows[k].state != Revoked && s'.rows[k].state == Revoked ==> s'.rows[k].envelope == s.rows[k].envelope && s'.kek == s.kek)
  }

  lemma InitialInv(kek: Bytes)
    requires |kek| == KEK_BYTES
    ensures Inv(Store(map[], kek, map[]))
  {
  }

  lemma {:induction false} CachedKeepsInv(s: Store, k: KeyId)
    requires Inv(s)
    ensures Inv(Cached(s, k)) && Cached(s, k).rows == s.rows && Cached(s, k).kek == s.kek
  {
  }

  lemma {:induction false} InsertedKeepsInv(s: Store, ws: Text, id: KeyId, dek: Dek, now: int)
    requires Inv(s) && id !in s.rows && forall k :: !IsActive(s.rows, k, ws)
    ensures Inv(Inserted(s, ws, id, dek, now))
    ensures forall k :: RowKept(s, Inserted(s, ws, id, dek, now), k)
  {
    var s' := Inserted(s, ws, id, dek, now);
    forall w, j, k | IsActive(s'.rows, j, w) && IsActive(s'.rows, k, w) ensures j == k {
      assert j != id ==> IsActive(s.rows, j, w);
      assert k != id ==> IsActive(s.rows, k, w);
    }
  }

  lemma {:induction false} RetiredKeepsInv(s: Store, k: KeyId, now: int)
    requires Inv(s) && k in s.rows && s.rows[k].state == Active
    ensures Inv(Retired(s, k, now))
    ensures forall j :: !IsActive(Retired(s, k, now).rows, j, s.rows[k].workspaceId)
    ensures forall j :: RowKept(s, Retired(s, k, now), j)
  {
    var s' := Retired(s, k, now);
    var ws := s.rows[k].workspaceId;
    forall w, j | IsActive(s'.rows, j, w) ensures IsActive(s.rows, j, w) && j != k {
    }
    forall j ensures !IsActive(s'.rows, j, ws) {
      assert IsActive(s.rows, k, ws);
    }
  }

  lemma {:induction false} ActiveIdUnique(rows: Rows, k: KeyId, ws: Text)
    requires OneActive(rows) && IsActive(rows, k, ws)
    ensures ActiveId(rows, ws) == Some(k)
  {
  }

  lemma {:induction false} RotateKeepsInv(s: Store, ws: Text, id: KeyId, dek: Dek, now: int)
    requires Inv(s) && id !in s.rows
    ensures Inv(RotateStep(s, ws, id, dek, now))
    ensures forall k :: RowKept(s, RotateStep(s, ws, id, dek, now), k)
  {
    hide Inv, Inserted, Retired, Cached;
    match ActiveId(s.rows, ws)
    case None =>
      InsertedKeepsInv(s, ws, id, dek, now);
    case Some(prev) =>
      if OpenRow(s, prev).Some? {
        RetiredKeepsInv(s, prev, now);
        var s1 := Retired(s, prev, now);
        CachedKeepsInv(s1, prev);
        RetiredShape(s, prev, now);
        var s2 := Cached(s1, prev);
        var s3 := Inserted(s2, ws, id, dek, now);
        InsertedKeepsInv(s2, ws, id, dek, now);
        InsertedShape(s2, ws, id, dek, now);
        forall k ensures RowKept(s, s3, k) {
          assert RowKept(s, s1, k);
        }
      }
  }

  lemma RetiredShape(s: Store, k: KeyId, now: int)
    requires k in s.rows
    ensures Retired(s, k, now).rows.Keys == s.rows.Keys && Retired(s, k, now).kek == s.kek
  {
  }

  lemma InsertedShape(s: Store, ws: Text, id: KeyId, dek: Dek, now: int)
    ensures var s' := Inserted(s, ws, id, dek, now);
      s'.kek == s.kek && forall k | k in s.rows && k != id :: k in s'.rows && s'.rows[k] == s.rows[k]
  {
  }

  lemma {:induction false} ArchiveKeepsInv(s: Store, k: KeyId)
    requires Inv(s)
    ensures Inv(ArchiveStep(s, k)) && forall j :: RowKept(s, ArchiveStep(s, k), j)
  {
    var s' := ArchiveStep(s, k);
    forall j, ws | IsActive(s'.rows, j, ws) ensures IsActive(s.rows, j, ws) {
    }
  }

  lemma {:induction false} ArchiveOverlappedKeepsInv(s: Store, ws: Text, cutoff: int)
    requires Inv(s)
    ensures Inv(ArchiveOverlappedStep(s, ws, cutoff)) && forall j :: RowKept(s, ArchiveOverlappedStep(s, ws, cutoff), j)
  {
    var s' := ArchiveOverlappedStep(s, ws, cutoff);
    forall j, w | IsActive(s'.rows, j, w) ensures IsActive(s.rows, j, w) {
    }
  }

  lemma {:induction false} RevokeKeepsInv(s: Store, k: KeyId, now: int)
    requires Inv(s)
    ensures Inv(RevokeStep(s, k, now)) && forall j :: RowKept(s, RevokeStep(s, k, now), j)
  {
    var s' := RevokeStep(s, k, now);
    forall j, ws | IsActive(s'.rows, j, ws) ensures IsActive(s.rows, j, ws) {
    }
  }

  /** With a well-kept store a 32-byte KEK is always accepted; the DEKs do not change. */
  lemma {:induction false} RotateKekKeepsInv(s: Store, newKek: Bytes)
    requires Inv(s)
    ensures var s' := RotateKekStep(s, newKek);
      && Inv(s')
      && (if |newKek| == KEK_BYTES then s'.kek == newKek && s'.cache == map[] else s' == s)
      && forall j :: RowKept(s, s', j)
  {
    var s' := RotateKekStep(s, newKek);
    assert AllOpen(s.rows, s.kek);
    forall j, ws | IsActive(s'.rows, j, ws) ensures IsActive(s.rows, j, ws) {
    }
  }

  /** Reopening is safe under exactly the KEKs that open every live row. */
  lemma {:induction false} ReopenKeepsInvExactly(s: Store, kek: Bytes)
    requires Inv(s)
    ensures Inv(Reopened(s, kek)) <==> OpensUnder(s.rows, kek)
    ensures OpensUnder(s.rows, kek) <==>
            |kek| == KEK_BYTES && (kek == s.kek || forall k | k in s.rows :: s.rows[k].state == Revoked)
    ensures forall j :: RowKept(s, Reopened(s, kek), j)
  {
    assert LiveRowsOpen(Reopened(s, kek)) <==> forall k | k in s.rows :: s.rows[k].state == Revoked || s.rows[k].envelope.kek == kek;
  }

  lemma {:induction false} StepKeepsInv(s: Store, e: Event)
    requires Inv(s) && Permitted(s, e)
    ensures Inv(Step(s, e))
    ensures forall k :: RowKept(s, Step(s, e), k)
  {
    hide Inv, RotateStep, ArchiveStep, ArchiveOverlappedStep, RotateKekStep, RevokeStep, Cached, Inserted;
    match e
    case Provision(ws, id, dek, now) =>
      if ActiveId(s.rows, ws).None? {
        InsertedKeepsInv(s, ws, id, dek, now);
      }
    case Rotate(ws, id, dek, now) => RotateKeepsInv(s, ws, id, dek, now);
    case Archive(k) => ArchiveKeepsInv(s, k);
    case ArchiveOverlapped(ws, cutoff) => ArchiveOverlappedKeepsInv(s, ws, cutoff);
    case RotateKek(newKek) => RotateKekKeepsInv(s, newKek);
    case Revoke(k, now) => RevokeKeepsInv(s, k, now);
    case Lookup(k) => CachedKeepsInv(s, k);
    case Reopen(kek) => ReopenKeepsInvExactly(s, kek);
  }

  lemma {:induction false} SafetyOverRuns(s: Store, es: seq<Event>)
    requires Inv(s) && Feasible(s, es)
    ensures Inv(Final(s, es))
    decreases |es|
  {
    hide Inv, Step;
    if es != [] {
      StepKeepsInv(s, es[0]);
      SafetyOverRuns(Step(s, es[0]), es[1..]);
    }
  }

  // ---------------------------------------------------------------------------
  // Which keys can still be recovered
  // ---------------------------------------------------------------------------

  /** The DEK a key was created with never changes, and rows are never dropped. */
  lemma {:induction false} DekIsConstant(s: Store, es: seq<Event>, k: KeyId)
    requires Inv(s) && Feasible(s, es) && k in s.rows
    ensures k in Final(s, es).rows
    ensures Final(s, es).rows[k].envelope.dek == s.rows[k].envelope.dek
    ensures s.rows[k].state == Revoked ==>
      Final(s, es).rows[k].state == Revoked && Final(s, es).rows[k].envelope == s.rows[k].envelope
    decreases |es|
  {
    hide Inv, Step;
    if es != [] {
      var s' := Step(s, es[0]);
      StepKeepsInv(s, es[0]);
      assert RowKept(s, s', k);
      DekIsConstant(s', es[1..], k);
    }
  }

  /** A key resolves to its own DEK exactly when its envelope is under the KEK in force. */
  lemma {:induction false} ResolvesExactly(s: Store, k: KeyId)
    requires Inv(s) && k in s.rows
    ensures Resolve(s, k) ==
      if s.rows[k].envelope.kek == s.kek then Found(s.rows[k].envelope.dek, s.rows[k].state) else Throws
  {
  }

  /** The KEK in force when `k` became revoked along the run, or at its end if it never did. */
  ghost function KekAtRevocation(s: Store, es: seq<Event>, k: KeyId): Bytes
    requires k in s.rows && Inv(s) && Feasible(s, es)
    decreases |es|
  {
    if es == [] || s.rows[k].state == Revoked then s.kek
    else
      StepKeepsInv(s, es[0]);
      assert RowKept(s, Step(s, es[0]), k);
      KekAtRevocation(Step(s, es[0]), es[1..], k)
  }

  lemma {:induction false} EnvelopeKek(s: Store, es: seq<Event>, k: KeyId)
    requires Inv(s) && Feasible(s, es) && k in s.rows && s.rows[k].envelope.kek == s.kek
    ensures k in Final(s, es).rows && Final(s, es).rows[k].envelope.kek == KekAtRevocation(s, es, k)
    decreases |es|
  {
    if s.rows[k].state == Revoked {
      DekIsConstant(s, es, k);
    } else if es != [] {
      var s' := Step(s, es[0]);
      StepKeepsInv(s, es[0]);
      assert RowKept(s, s', k);
      assert s'.rows[k].envelope.kek == s'.kek;
      hide Inv, Step;
      EnvelopeKek(s', es[1..], k);
    }
  }

  /**
   * After any run, a key that could be opened resolves to the same DEK if and only
   * if the KEK now in force is the one that was in force when it was revoked (a
   * key never revoked always resolves).
   */
  lemma {:induction false} SurvivesExactly(s: Store, es: seq<Event>, k: KeyId)
    requires Inv(s) && Feasible(s, es) && k in s.rows && s.rows[k].envelope.kek == s.kek
    ensures var s' := Final(s, es);
      && k in s'.rows
      && Resolve(s', k) == (if s'.kek == KekAtRevocation(s, es, k)
                            then Found(s.rows[k].envelope.dek, s'.rows[k].state) else Throws)
  {
    SafetyOverRuns(s, es);
    DekIsConstant(s, es, k);
    EnvelopeKek(s, es, k);
    ResolvesExactly(Final(s, es), k);
  }

  /** The step puts another KEK in force, or re-wraps the table. */
  predicate RotatesKek(s: Store, e: Event) {
    (e.RotateKek? && |e.newKek| == KEK_BYTES) || (e.Reopen? && e.kek != s.kek)
  }

  /** No KEK rotation takes effect once `k` is revoked. */
  ghost predicate NoKekRotationOnceRevoked(s: Store, es: seq<Event>, k: KeyId)
    decreases |es|
  {
    es == [] ||
    (&& !(k in s.rows && s.rows[k].state == Revoked && RotatesKek(s, es[0]))
     && NoKekRotationOnceRevoked(Step(s, es[0]), es[1..], k))
  }

  lemma {:induction false} KekOnlyChangesByRotation(s: Store, e: Event)
    requires !RotatesKek(s, e)
    ensures Step(s, e).kek == s.kek
  {
  }

  lemma {:induction false} KekHoldsOnceRevoked(s: Store, es: seq<Event>, k: KeyId)
    requires Inv(s) && Feasible(s, es) && NoKekRotationOnceRevoked(s, es, k)
    requires k in s.rows && s.rows[k].state == Revoked
    ensures Final(s, es).kek == s.kek
    decreases |es|
  {
    if es != [] {
      KekOnlyChangesByRotation(s, es[0]);
      hide Inv, Step;
      StepKeepsInv(s, es[0]);
      assert RowKept(s, Step(s, es[0]), k);
      KekHoldsOnceRevoked(Step(s, es[0]), es[1..], k);
    }
  }

  lemma {:induction false} KekHoldsAfterRevocation(s: Store, es: seq<Event>, k: KeyId)
    requires Inv(s) && Feasible(s, es) && k in s.rows && NoKekRotationOnceRevoked(s, es, k)
    ensures Final(s, es).kek == KekAtRevocation(s, es, k)
    decreases |es|
  {
    if s.rows[k].state == Revoked {
      KekHoldsOnceRevoked(s, es, k);
    } else if es != [] {
      hide Inv, Step;
      StepKeepsInv(s, es[0]);
      assert RowKept(s, Step(s, es[0]), k);
      KekHoldsAfterRevocation(Step(s, es[0]), es[1..], k);
    }
  }

  /** Every key resolves to its own DEK as long as no KEK rotation follows its revocation. */
  lemma {:induction false} ResolvesWithoutLateRotation(s: Store, es: seq<Event>, k: KeyId)
    requires Inv(s) && Feasible(s, es) && NoKekRotationOnceRevoked(s, es, k)
    requires k in s.rows && s.rows[k].envelope.kek == s.kek
    ensures k in Final(s, es).rows
    ensures Resolve(Final(s, es), k) == Found(s.rows[k].envelope.dek, Final(s, es).rows[k].state)
  {
    SurvivesExactly(s, es, k);
    KekHoldsAfterRevocation(s, es, k);
  }

  /** Revoking and then moving to a different KEK loses the key. */
  lemma {:induction false} LateRotationLosesTheKey(s: Store, k: KeyId, now: int, newKek: Bytes)
    requires Inv(s) && k in s.rows && s.rows[k].state != Revoked
    requires |newKek| == KEK_BYTES && newKek != s.kek
    ensures Resolve(Final(s, [Revoke(k, now), RotateKek(newKek)]), k) == Throws
  {
    var es := [Revoke(k, now), RotateKek(newKek)];
    var s1 := Step(s, es[0]);
    var s2 := Step(s1, es[1]);
    RevokeKeepsInv(s, k, now);
    RotateKekKeepsInv(s1, newKek);
    assert RowKept(s1, s2, k);
    assert Feasible(s1, es[1..]) && Final(s1, es[1..]) == s2;
    ResolvesExactly(s2, k);
  }
}
