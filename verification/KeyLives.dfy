/**
 * The life of a key, told by the events alone: which key of a workspace is active after a
 * run, and what has become of each key since it was made.
 */
module KeyLives {
  import opened Prelude
  import opened CodeUnits
  import opened KeyStoreSpec

  // ---------------------------------------------------------------------------
  // The active key
  // ---------------------------------------------------------------------------

  /** The active key of a workspace after an event, from the one before it. */
  function ActiveNext(active: Option<KeyId>, e: Event, ws: Text): Option<KeyId> {
    match e
    case Provision(w, id, _, _) => if w == ws && active.None? then Some(id) else active
    case Rotate(w, id, _, _) => if w == ws then Some(id) else active
    case Revoke(k, _) => if active == Some(k) then None else active
    case _ => active
  }

  function ActiveAfter(active: Option<KeyId>, es: seq<Event>, ws: Text): Option<KeyId>
    decreases |es|
  {
    if es == [] then active else ActiveAfter(ActiveNext(active, es[0], ws), es[1..], ws)
  }

  /** The active keys of `rows` are those of `old` with `active` for the workspace `ws`. */
  ghost predicate ActiveIs(rows: Rows, ws: Text, active: Option<KeyId>) {
    forall k :: IsActive(rows, k, ws) <==> active == Some(k)
  }

  lemma ActiveIsExactly(rows: Rows, ws: Text, active: Option<KeyId>)
    requires OneActive(rows)
    ensures ActiveIs(rows, ws, active) <==> ActiveId(rows, ws) == active
  {
    if active.Some? && IsActive(rows, active.value, ws) {
      ActiveIdUnique(rows, active.value, ws);
    }
  }

  /** A step that keeps states and workspaces keeps the active keys. */
  lemma SameActive(s: Store, s': Store, ws: Text, active: Option<KeyId>)
    requires ActiveIs(s.rows, ws, active) && s'.rows.Keys == s.rows.Keys
    requires forall k | k in s.rows :: s'.rows[k].workspaceId == s.rows[k].workspaceId
                                    && (s'.rows[k].state == Active <==> s.rows[k].state == Active)
    ensures ActiveIs(s'.rows, ws, active)
  {
    forall k ensures IsActive(s'.rows, k, ws) <==> IsActive(s.rows, k, ws) {
      assert k in s'.rows <==> k in s.rows;
    }
  }

  lemma InsertedActive(s: Store, w: Text, id: KeyId, dek: Dek, now: int, ws: Text, active: Option<KeyId>)
    requires ActiveIs(s.rows, ws, active) && id !in s.rows && (w == ws ==> active.None?)
    ensures ActiveIs(Inserted(s, w, id, dek, now).rows, ws, if w == ws then Some(id) else active)
  {
    var s' := Inserted(s, w, id, dek, now);
    forall k ensures IsActive(s'.rows, k, ws) <==> (if w == ws then k == id else active == Some(k)) {
      assert IsActive(s.rows, k, ws) <==> active == Some(k);
    }
  }

  lemma RetiredActive(s: Store, k: KeyId, now: int, ws: Text, active: Option<KeyId>)
    requires ActiveIs(s.rows, ws, active) && k in s.rows && s.rows[k].state == Active
    ensures ActiveIs(Retired(s, k, now).rows, ws, if s.rows[k].workspaceId == ws then None else active)
  {
    var s' := Retired(s, k, now);
    assert s.rows[k].workspaceId == ws ==> IsActive(s.rows, k, ws);
    forall j ensures IsActive(s'.rows, j, ws) <==> IsActive(s.rows, j, ws) && j != k {
    }
  }

  lemma RotateActive(s: Store, w: Text, id: KeyId, dek: Dek, now: int, ws: Text, active: Option<KeyId>)
    requires Inv(s) && id !in s.rows && ActiveIs(s.rows, ws, active)
    ensures ActiveIs(RotateStep(s, w, id, dek, now).rows, ws, if w == ws then Some(id) else active)
  {
    ActiveIsExactly(s.rows, ws, active);
    match ActiveId(s.rows, w)
    case None =>
      hide Inv;
      InsertedActive(s, w, id, dek, now, ws, active);
    case Some(prev) =>
      assert OpenRow(s, prev).Some?;
      var s1 := Retired(s, prev, now);
      var s2 := Cached(s1, prev);
      assert s2.rows == s1.rows;
      RetiredActive(s, prev, now, ws, active);
      hide Inv, Retired, Cached, Inserted, IsActive;
      RetiredShape(s, prev, now);
      InsertedActive(s2, w, id, dek, now, ws, if w == ws then None else active);
  }

  lemma RevokeActive(s: Store, k: KeyId, now: int, ws: Text, active: Option<KeyId>)
    requires ActiveIs(s.rows, ws, active)
    ensures ActiveIs(RevokeStep(s, k, now).rows, ws, if active == Some(k) then None else active)
  {
    var s' := RevokeStep(s, k, now);
    forall j ensures IsActive(s'.rows, j, ws) <==> IsActive(s.rows, j, ws) && j != k {
    }
  }

  lemma {:induction false} StepActive(s: Store, e: Event, ws: Text, active: Option<KeyId>)
    requires Inv(s) && Permitted(s, e) && ActiveIs(s.rows, ws, active)
    ensures ActiveIs(Step(s, e).rows, ws, ActiveNext(active, e, ws))
  {
    ActiveIsExactly(s.rows, ws, active);
    match e
    case Provision(w, id, dek, now) =>
      hide Inv;
      if ActiveId(s.rows, w).None? {
        InsertedActive(s, w, id, dek, now, ws, active);
      }
    case Rotate(w, id, dek, now) =>
      hide RotateStep;
      RotateActive(s, w, id, dek, now, ws, active);
    case Revoke(k, now) =>
      hide RevokeStep;
      RevokeActive(s, k, now, ws, active);
    case RotateKek(newKek) => SameActive(s, Step(s, e), ws, active);
    case _ => SameActive(s, Step(s, e), ws, active);
  }

  lemma {:induction false} ActiveIsOverRuns(s: Store, es: seq<Event>, ws: Text, active: Option<KeyId>)
    requires Inv(s) && Feasible(s, es) && ActiveIs(s.rows, ws, active)
    ensures Inv(Final(s, es)) && ActiveIs(Final(s, es).rows, ws, ActiveAfter(active, es, ws))
    decreases |es|
  {
    hide Inv, Step, ActiveIs, ActiveNext;
    if es != [] {
      StepActive(s, es[0], ws, active);
      StepKeepsInv(s, es[0]);
      ActiveIsOverRuns(Step(s, es[0]), es[1..], ws, ActiveNext(active, es[0], ws));
    }
  }

  lemma OneActiveIn(s: Store)
    requires Inv(s)
    ensures OneActive(s.rows)
  {
  }

  /**
   * After any run the active key of a workspace is the latest one rotated in, or
   * provisioned while there was none, unless it has been revoked since.
   */
  lemma {:induction false} ActiveFollowsEvents(s: Store, es: seq<Event>, ws: Text)
    requires Inv(s) && Feasible(s, es)
    ensures ActiveId(Final(s, es).rows, ws) == ActiveAfter(ActiveId(s.rows, ws), es, ws)
  {
    OneActiveIn(s);
    hide Inv, ActiveAfter, Final, Feasible, ActiveIs, OneActive;
    ActiveIsExactly(s.rows, ws, ActiveId(s.rows, ws));
    ActiveIsOverRuns(s, es, ws, ActiveId(s.rows, ws));
    OneActiveIn(Final(s, es));
    ActiveIsExactly(Final(s, es).rows, ws, ActiveAfter(ActiveId(s.rows, ws), es, ws));
  }

  /** A new key is active at once, under its own id and DEK. */
  lemma {:induction false} NewKeyIsActive(s: Store, e: Event)
    requires Inv(s) && Permitted(s, e) && (e.Rotate? || (e.Provision? && ActiveId(s.rows, e.ws).None?))
    ensures var s' := Step(s, e);
      && ActiveId(s'.rows, e.ws) == Some(e.id)
      && Resolve(s', e.id) == Found(e.dek, Active)
      && e.id in s'.rows && s'.rows[e.id].createdAt == e.now
  {
    OneActiveIn(s);
    ActiveIsExactly(s.rows, e.ws, ActiveId(s.rows, e.ws));
    StepActive(s, e, e.ws, ActiveId(s.rows, e.ws));
    StepKeepsInv(s, e);
    OneActiveIn(Step(s, e));
    ActiveIsExactly(Step(s, e).rows, e.ws, Some(e.id));
    ResolvesExactly(Step(s, e), e.id);
    if e.Rotate? && ActiveId(s.rows, e.ws).Some? {
      assert OpenRow(s, ActiveId(s.rows, e.ws).value).Some?;
    }
  }

  // ---------------------------------------------------------------------------
  // What becomes of a key
  // ---------------------------------------------------------------------------

  /** All of a row but the KEK its envelope is under. */
  datatype Life = Life(ws: Text, state: KeyState, dek: Dek, createdAt: int, rotatedAt: Option<int>, revokedAt: Option<int>)

  function LifeOf(s: Store, k: KeyId): Life
    requires k in s.rows
  {
    var r := s.rows[k];
    Life(r.workspaceId, r.state, r.envelope.dek, r.createdAt, r.rotatedAt, r.revokedAt)
  }

  /** What an event does to the key `k`. */
  function LifeNext(l: Life, e: Event, k: KeyId): Life {
    match e
    case Rotate(ws, _, _, now) => if l.ws == ws && l.state == Active then l.(state := Rotating, rotatedAt := Some(now)) else l
    case Archive(j) => if j == k && l.state == Rotating then l.(state := Archived) else l
    case ArchiveOverlapped(ws, cutoff) =>
      if l.ws == ws && l.state == Rotating && l.rotatedAt.Some? && l.rotatedAt.value <= cutoff then l.(state := Archived) else l
    case Revoke(j, now) => if j == k && l.state != Revoked then l.(state := Revoked, revokedAt := Some(now)) else l
    case _ => l
  }

  function LifeAfter(l: Life, es: seq<Event>, k: KeyId): Life
    decreases |es|
  {
    if es == [] then l else LifeAfter(LifeNext(l, es[0], k), es[1..], k)
  }

  lemma {:induction false} RotateLife(s: Store, e: Event, k: KeyId)
    requires Inv(s) && Permitted(s, e) && k in s.rows && e.Rotate?
    ensures k in Step(s, e).rows && LifeOf(Step(s, e), k) == LifeNext(LifeOf(s, k), e, k)
  {
    var active := ActiveId(s.rows, e.ws);
    assert k != e.id;
    assert IsActive(s.rows, k, e.ws) <==> active == Some(k);
    if active.Some? {
      assert OpenRow(s, active.value).Some?;
    }
  }

  lemma {:induction false} RotateKekLife(s: Store, newKek: Bytes, k: KeyId)
    requires Inv(s) && k in s.rows
    ensures k in RotateKekStep(s, newKek).rows && LifeOf(RotateKekStep(s, newKek), k) == LifeOf(s, k)
  {
  }

  lemma {:induction false} StepLife(s: Store, e: Event, k: KeyId)
    requires Inv(s) && Permitted(s, e) && k in s.rows
    ensures k in Step(s, e).rows && LifeOf(Step(s, e), k) == LifeNext(LifeOf(s, k), e, k)
  {
    match e
    case Rotate(_, _, _, _) =>
      hide Inv, Step;
      RotateLife(s, e, k);
    case RotateKek(newKek) =>
      hide Inv, RotateKekStep;
      RotateKekLife(s, newKek, k);
    case _ =>
      hide Inv;
  }

  /** After any run a key is what the events that name it or its workspace have made of it. */
  lemma {:induction false} LifeFollowsEvents(s: Store, es: seq<Event>, k: KeyId)
    requires Inv(s) && Feasible(s, es) && k in s.rows
    ensures k in Final(s, es).rows && LifeOf(Final(s, es), k) == LifeAfter(LifeOf(s, k), es, k)
    decreases |es|
  {
    hide Inv, Step, LifeOf, LifeNext;
    if es != [] {
      StepLife(s, es[0], k);
      StepKeepsInv(s, es[0]);
      LifeFollowsEvents(Step(s, es[0]), es[1..], k);
    }
  }

  /** The KEK in force after a run is the last 32-byte one rotated or reopened to. */
  function KekAfter(kek: Bytes, es: seq<Event>): Bytes
    decreases |es|
  {
    if es == [] then kek
    else
      var e := es[0];
      KekAfter(if e.RotateKek? && |e.newKek| == KEK_BYTES then e.newKek else if e.Reopen? then e.kek else kek, es[1..])
  }

  lemma {:induction false} KekFollowsEvents(s: Store, es: seq<Event>)
    requires Inv(s) && Feasible(s, es)
    ensures Final(s, es).kek == KekAfter(s.kek, es)
    decreases |es|
  {
    hide Inv, RotateKekStep, RotateStep, ArchiveStep, ArchiveOverlappedStep, RevokeStep, Cached, Inserted;
    if es != [] {
      StepKeepsInv(s, es[0]);
      KekStep(s, es[0]);
      hide Step;
      KekFollowsEvents(Step(s, es[0]), es[1..]);
    }
  }

  lemma {:induction false} KekStep(s: Store, e: Event)
    requires Inv(s) && Permitted(s, e)
    ensures Step(s, e).kek ==
      if e.RotateKek? && |e.newKek| == KEK_BYTES then e.newKek else if e.Reopen? then e.kek else s.kek
  {
    if e.RotateKek? {
      RotateKekKeepsInv(s, e.newKek);
      hide RotateKekStep, Inv;
    } else if !e.Reopen? {
      KekOnlyChangesByRotation(s, e);
      hide Inv, Step;
    }
  }
}
