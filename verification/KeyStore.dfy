/** The key store object: each method takes the step KeyStoreSpec gives it. */
module KeyStoring {
  import opened Prelude
  import opened CodeUnits
  import opened S = KeyStoreSpec
  import KeyLives

  datatype ResolvedKey = ResolvedKey(keyId: KeyId, workspaceId: Text, state: KeyState, dek: Dek)

  datatype KeyError = AlreadyActive(keyId: KeyId) | BadKekLength(length: nat) | UnwrapFailed

  /** What is left of `rows` to re-wrap, and that everything done so far opened. */
  ghost predicate RewrapProgress(rows: Rows, kek: Bytes, newKek: Bytes, left: set<KeyId>, now: Rows) {
    && now == (map k | k in rows :: if k in left then rows[k] else Rewrapped(rows[k], kek, newKek))
    && forall k | k in rows && k !in left && rows[k].state != Revoked :: UnwrapDek(rows[k].envelope, kek).Some?
  }

  lemma {:induction false} RewrapStep(rows: Rows, kek: Bytes, newKek: Bytes, left: set<KeyId>, now: Rows, k: KeyId)
    requires RewrapProgress(rows, kek, newKek, left, now) && k in left && k in rows
    requires rows[k].state != Revoked && UnwrapDek(rows[k].envelope, kek).Some?
    ensures k in now && now[k] == rows[k]
    ensures RewrapProgress(rows, kek, newKek, left - {k}, now[k := Rewrapped(rows[k], kek, newKek)])
  {
  }

  lemma {:induction false} RewrapDone(rows: Rows, kek: Bytes, newKek: Bytes, now: Rows)
    requires RewrapProgress(rows, kek, newKek, {}, now)
    ensures AllOpen(rows, kek) && now == map k | k in rows :: Rewrapped(rows[k], kek, newKek)
  {
  }

  lemma {:induction false} RewrapBegins(rows: Rows, kek: Bytes, newKek: Bytes)
    ensures RewrapProgress(rows, kek, newKek, (set k | k in rows && rows[k].state != Revoked), rows)
  {
  }

  class KeyStore {
    var rows: Rows
    var kek: Bytes
    var dekCache: map<KeyId, Dek>

    ghost function Model(): Store
      reads this
    {
      Store(rows, kek, dekCache)
    }

    ghost predicate Valid()
      reads this
    {
      Inv(Model())
    }

    /** Opens a table, new or used before, under the KEK it is given, which it does not try out. */
    constructor (rows: Rows, kek: Bytes)
      ensures Model() == Store(rows, kek, map[])
      ensures Valid() <==> OneActive(rows) && OpensUnder(rows, kek)
    {
      this.rows, this.kek, dekCache := rows, kek, map[];
    }

    /** SELECT ... WHERE workspace_id = ? AND key_state = 'active' LIMIT 1 */
    method ActiveRow(workspaceId: Text) returns (r: Option<KeyId>)
      requires OneActive(rows)
      ensures r == ActiveId(rows, workspaceId)
    {
      var left := rows.Keys;
      while left != {}
        invariant left <= rows.Keys
        invariant forall k | k in rows && k !in left :: !IsActive(rows, k, workspaceId)
        decreases left
      {
        var k :| k in left;
        if rows[k].workspaceId == workspaceId && rows[k].state == Active {
          ActiveIdUnique(rows, k, workspaceId);
          return Some(k);
        }
        left := left - {k};
      }
      r := None;
    }

    method UnwrapWithCache(k: KeyId) returns (dek: Option<Dek>)
      requires k in rows
      modifies this`dekCache
      ensures dek == OpenRow(old(Model()), k)
      ensures Model() == Cached(old(Model()), k)
    {
      if k in dekCache {
        assert dekCache == dekCache[k := dekCache[k]];
        return Some(dekCache[k]);
      }
      dek := UnwrapDek(rows[k].envelope, kek);
      if dek.Some? {
        dekCache := dekCache[k := dek.value];
      }
    }

    method Insert(workspaceId: Text, freshId: KeyId, freshDek: Dek, now: int)
      modifies this`rows, this`dekCache
      ensures Model() == Inserted(old(Model()), workspaceId, freshId, freshDek, now)
    {
      rows := rows[freshId := Row(workspaceId, Active, WrapDek(freshDek, kek), now, None, None)];
      dekCache := dekCache[freshId := freshDek];
    }

    method Provision(workspaceId: Text, freshId: KeyId, freshDek: Dek, now: int) returns (r: Result<ResolvedKey, KeyError>)
      requires Valid() && freshId !in rows
      modifies this
      ensures Valid() && Model() == Step(old(Model()), Event.Provision(workspaceId, freshId, freshDek, now))
      ensures r == match old(ActiveId(rows, workspaceId))
                   case Some(k) => Err(AlreadyActive(k))
                   case None => Ok(ResolvedKey(freshId, workspaceId, Active, freshDek))
      ensures r.Ok? ==> ActiveId(rows, workspaceId) == Some(freshId)
    {
      hide Inv, Inserted;
      if ActiveId(rows, workspaceId).None? {
        KeyLives.NewKeyIsActive(Model(), Event.Provision(workspaceId, freshId, freshDek, now));
      }
      StepKeepsInv(Model(), Event.Provision(workspaceId, freshId, freshDek, now));
      assert OneActive(rows) by {
        OneActiveOf(Model());
      }
      var existing := ActiveRow(workspaceId);
      if existing.Some? {
        return Err(AlreadyActive(existing.value));
      }
      Insert(workspaceId, freshId, freshDek, now);
      r := Ok(ResolvedKey(freshId, workspaceId, Active, freshDek));
    }

    /** The key new records are signed with; opening it cannot fail in a well-kept store. */
    method ActiveKey(workspaceId: Text) returns (r: Option<ResolvedKey>)
      requires Valid()
      modifies this
      ensures Valid() && rows == old(rows) && kek == old(kek)
      ensures r == match ActiveId(rows, workspaceId)
                   case None => None
                   case Some(k) => Some(ResolvedKey(k, workspaceId, Active, rows[k].envelope.dek))
    {
      var row := ActiveRow(workspaceId);
      if row.None? {
        return None;
      }
      ResolvesExactly(Model(), row.value);
      CachedKeepsInv(Model(), row.value);
      var dek := UnwrapWithCache(row.value);
      r := Some(ResolvedKey(row.value, workspaceId, Active, dek.value));
    }

    /** Resolves a key in any state; a cached DEK without a row resolves to nothing. */
    method ResolveById(keyId: KeyId) returns (r: Resolution)
      modifies this
      ensures r == Resolve(old(Model()), keyId)
      ensures Model() == Step(old(Model()), Event.Lookup(keyId))
      ensures old(Valid()) ==> Valid()
    {
      ghost var before := Model();
      if keyId in dekCache {
        if keyId !in rows {
          return Missing;
        }
        assert dekCache == dekCache[keyId := dekCache[keyId]];
        return Found(dekCache[keyId], rows[keyId].state);
      }
      if keyId !in rows {
        return Missing;
      }
      var state := rows[keyId].state;
      var dek := UnwrapWithCache(keyId);
      if Inv(before) {
        CachedKeepsInv(before, keyId);
      }
      r := if dek.Some? then Found(dek.value, state) else Throws;
    }

    method Rotate(workspaceId: Text, freshId: KeyId, freshDek: Dek, now: int)
      returns (previous: Option<ResolvedKey>, current: ResolvedKey)
      requires Valid() && freshId !in rows
      modifies this
      ensures Valid() && Model() == Step(old(Model()), Event.Rotate(workspaceId, freshId, freshDek, now))
      ensures current == ResolvedKey(freshId, workspaceId, Active, freshDek)
      ensures ActiveId(rows, workspaceId) == Some(freshId)
      ensures previous == match old(ActiveId(rows, workspaceId))
                          case None => None
                          case Some(k) => Some(ResolvedKey(k, workspaceId, Rotating, old(rows[k].envelope.dek)))
    {
      ghost var before := Model();
      StepKeepsInv(before, Event.Rotate(workspaceId, freshId, freshDek, now));
      KeyLives.NewKeyIsActive(before, Event.Rotate(workspaceId, freshId, freshDek, now));
      var prev := ActiveRow(workspaceId);
      previous := None;
      if prev.Some? {
        var k := prev.value;
        ResolvesExactly(before, k);
        hide Inv;
        rows := rows[k := rows[k].(state := Rotating, rotatedAt := Some(now))];
        var dek := UnwrapWithCache(k);
        previous := Some(ResolvedKey(k, workspaceId, Rotating, dek.value));
      }
      Insert(workspaceId, freshId, freshDek, now);
      current := ResolvedKey(freshId, workspaceId, Active, freshDek);
    }

    method Archive(keyId: KeyId) returns (changed: bool)
      requires Valid()
      modifies this
      ensures Valid() && Model() == Step(old(Model()), Event.Archive(keyId))
      ensures changed == (Model() != old(Model()))
    {
      StepKeepsInv(Model(), Event.Archive(keyId));
      changed := keyId in rows && rows[keyId].state == Rotating;
      if changed {
        ghost var was := rows[keyId];
        rows := rows[keyId := rows[keyId].(state := Archived)];
        assert rows[keyId] != was;
      }
    }

    method ArchiveOverlapped(workspaceId: Text, overlapMs: int, now: int) returns (ids: set<KeyId>)
      requires Valid()
      modifies this
      ensures Valid() && Model() == Step(old(Model()), Event.ArchiveOverlapped(workspaceId, now - overlapMs))
      ensures ids == set k | k in old(rows) && PastOverlap(old(rows)[k], workspaceId, now - overlapMs)
    {
      ghost var before := Model();
      var cutoff := now - overlapMs;
      StepKeepsInv(before, Event.ArchiveOverlapped(workspaceId, cutoff));
      hide Inv;
      ids := set k | k in rows && PastOverlap(rows[k], workspaceId, cutoff);
      rows := map k | k in rows :: if k in ids && rows[k].state == Rotating then rows[k].(state := Archived) else rows[k];
      assert rows == ArchiveOverlappedStep(before, workspaceId, cutoff).rows;
    }

    /**
     * All or nothing, whatever the rows hold: either every row that is not revoked
     * is re-wrapped, the cache emptied and the KEK swapped, or nothing changes.
     */
    method RotateKek(newKek: Bytes) returns (r: Result<nat, KeyError>)
      modifies this
      ensures Model() == Step(old(Model()), Event.RotateKek(newKek))
      ensures r.Ok? ==> r.value == |set k | k in old(rows) && old(rows)[k].state != Revoked|
      ensures r.Err? ==> Model() == old(Model())
      ensures r.Ok? <==> |newKek| == KEK_BYTES && AllOpen(old(rows), old(kek))
      ensures old(Valid()) ==> Valid() && (r.Ok? <==> |newKek| == KEK_BYTES)
    {
      ghost var before := Model();
      if Inv(before) {
        RotateKekKeepsInv(before, newKek);
      }
      hide Inv, RewrapProgress, Rewrapped;
      if |newKek| != KEK_BYTES {
        return Err(BadKekLength(|newKek|));
      }
      var selected := set k | k in rows && rows[k].state != Revoked;
      var left := selected;
      var updated := rows;
      RewrapBegins(rows, kek, newKek);
      while left != {}
        invariant Model() == before && left <= selected
        invariant RewrapProgress(rows, kek, newKek, left, updated)
        decreases left
      {
        var k :| k in left;
        var dek := UnwrapDek(rows[k].envelope, kek);
        if dek.None? {
          assert !AllOpen(rows, kek);
          return Err(UnwrapFailed);
        }
        RewrapStep(rows, kek, newKek, left, updated, k);
        updated := updated[k := rows[k].(envelope := WrapDek(dek.value, newKek))];
        RewrappedOpen(rows[k], kek, newKek);
        left := left - {k};
      }
      RewrapDone(rows, kek, newKek, updated);
      rows, dekCache, kek := updated, map[], newKek;
      r := Ok(|selected|);
    }

    method Revoke(keyId: KeyId, now: int) returns (changed: bool)
      requires Valid()
      modifies this
      ensures Valid() && Model() == Step(old(Model()), Event.Revoke(keyId, now))
      ensures changed == (keyId in old(rows) && old(rows)[keyId].state != Revoked)
      ensures keyId in rows ==> rows[keyId].state == Revoked
    {
      StepKeepsInv(Model(), Event.Revoke(keyId, now));
      changed := keyId in rows && rows[keyId].state != Revoked;
      if changed {
        rows := rows[keyId := rows[keyId].(state := Revoked, revokedAt := Some(now))];
      }
    }
  }

  lemma OneActiveOf(s: Store)
    requires Inv(s)
    ensures OneActive(s.rows)
  {
  }

  lemma RewrappedOpen(r: Row, kek: Bytes, newKek: Bytes)
    requires r.state != Revoked && UnwrapDek(r.envelope, kek).Some?
    ensures Rewrapped(r, kek, newKek) == r.(envelope := WrapDek(UnwrapDek(r.envelope, kek).value, newKek))
  {
  }
}
