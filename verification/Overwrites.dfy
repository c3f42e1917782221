/** What an update writes back that it did not mean to: it stores the whole user it read, and that may
    be a cached copy. */
module Overwrites {
  import opened Domain
  import opened Database
  import opened Cache
  import opened Service
  import opened EventHistory
  import opened Transparency
  import opened Requests

  /** The first lookup of the request is answered by the cache. */
  predicate ServedFromCache(s: Sys, c: Call)
    requires c.UpdateCall?
  {
    !c.byId.getFails && Peek(Elapse(s.store, c.byId.dt), ById(c.id)).Some?
  }

  /** The user that the request reads: the cached copy or the row. */
  function CopyRead(s: Sys, c: Call): User
    requires c.UpdateCall? && (ServedFromCache(s, c) || c.id in s.store.table)
  {
    if ServedFromCache(s, c) then s.store.cache[ById(c.id)].user else s.store.table[c.id]
  }

  /** The request went through, or it changed the table before it failed. */
  ghost predicate Committed(s: Sys, c: Call, ttl: Ttl)
    requires c.UpdateCall?
  {
    var (s', r) := StepUpdate(Cached(ttl), s, c);
    r.Returned? || s'.store.table != s.store.table
  }

  lemma ReadsCopy(s: Sys, c: Call, ttl: Ttl)
    requires c.UpdateCall? && Sound(s.store, ttl)
    ensures var (s1, r) := GetBy(Cached(ttl), s.store, ById(c.id), c.byId);
            && s1.table == s.store.table && Heals(s1, ttl, s.store.clock + ttl)
            && (r.Ok? ==> (ServedFromCache(s, c) || c.id in s.store.table)
                          && r.value == CopyRead(s, c) && r.value.id == c.id)
  {
    assert Heals(s.store, ttl, s.store.clock + ttl);
    GetByHeals(s.store, ttl, ById(c.id), c.byId, s.store.clock + ttl);
    if c.id in s.store.table { FindIs(s.store.table, ById(c.id), c.id); }
  }

  /** A committed update rewrites its row with the patched copy, over any cache and with any faults. */
  lemma UpdateStoresCopy(s: Sys, c: Call, ttl: Ttl)
    requires c.UpdateCall? && Sound(s.store, ttl) && Committed(s, c, ttl)
    ensures var t, (s', r) := s.store.table, StepUpdate(Cached(ttl), s, c);
            && c.id in t
            && var u := Patched(CopyRead(s, c), c.patch);
            && s'.store.table == t[c.id := Rewritten(t[c.id], u, c.now)]
            && (r.Returned? ==> r.user == u)
  {
    var b := Cached(ttl);
    ReadsCopy(s, c, ttl);
    var (s1, r) := GetBy(b, s.store, ById(c.id), c.byId);
    if r.Ok? {
      EmailGuardHeals(s1, r.value, c, ttl, s.store.clock + ttl);
      var s2 := EmailGuard(b, s1, r.value, c).0;
      ChangeWrites(s2, Patched(r.value, c.patch), c.now, ttl, c.write);
    }
  }

  // ---- The password ------------------------------------------------------------------------------

  /** A committed update keeps the stored password exactly when it read the row and not a cached copy,
      or there was no password to lose. */
  lemma UpdateKeepsPasswordExactly(s: Sys, c: Call, ttl: Ttl)
    requires c.UpdateCall? && Sound(s.store, ttl) && Committed(s, c, ttl)
    ensures var t, t' := s.store.table, StepUpdate(Cached(ttl), s, c).0.store.table;
            && c.id in t && c.id in t'
            && (t'[c.id].password == t[c.id].password <==> !ServedFromCache(s, c) || t[c.id].password == "")
  {
    UpdateStoresCopy(s, c, ttl);
  }

  /** A created user is in the cache, under all its keys, for a full ttl. */
  lemma CreatedIsServed(s: Sys, c: Call, ttl: Ttl)
    requires c.CreateCall?
    ensures var (s', r) := StepCreate(Cached(ttl), s, c);
            r.Returned? ==>
              && r.user.id == c.id
              && forall k | Owns(r.user, k) ::
                   k in s'.store.cache && s'.store.cache[k] == Entry(Erase(r.user), s'.store.clock + ttl)
  {
  }

  /** Hence an update within a ttl of the creation, if it commits, always loses the password. */
  lemma UpdateAfterCreateErasesPassword(s: Sys, c: Call, d: Call, ttl: Ttl)
    requires c.CreateCall? && d.UpdateCall? && d.id == c.id
    requires Sound(s.store, ttl)
    requires !d.byId.getFails && d.byId.dt < ttl
    ensures var (s1, r1) := StepCreate(Cached(ttl), s, c);
            var s2 := StepUpdate(Cached(ttl), s1, d).0;
            r1.Returned? && Committed(s1, d, ttl) ==>
              c.id in s2.store.table && s2.store.table[c.id].password == ""
  {
    var (s1, r1) := StepCreate(Cached(ttl), s, c);
    if r1.Returned? && Committed(s1, d, ttl) {
      assert Heals(s.store, ttl, s.store.clock + ttl);
      CreateUserHeals(s, c, ttl, s.store.clock + ttl);
      CreatedIsServed(s, c, ttl);
      UpdateStoresCopy(s1, d, ttl);
    }
  }

  /** A run in which this happens: on the empty system, without faults, both requests succeed, and the
      hash that the first stored is gone after the second. */
  lemma PasswordIsLost(c: Call, d: Call, ttl: Ttl)
    requires c.CreateCall? && c.hash.Some? && c.hash.value != "" && !c.write.execFails && Smooth(c)
    requires Faultless(d) && d.id == c.id && !d.byId.getFails && d.byId.dt < ttl
    ensures var (s1, r1) := StepCreate(Cached(ttl), EMPTY, c);
            var (s2, r2) := StepUpdate(Cached(ttl), s1, d);
            && r1.Returned? && c.id in s1.store.table && s1.store.table[c.id].password == c.hash.value
            && r2.Returned? && c.id in s2.store.table && s2.store.table[c.id].password == ""
  {
    var (s1, r1) := StepCreate(Cached(ttl), EMPTY, c);
    CreateUserExact(EMPTY, c, ttl);
    CreateUserSound(Cached(ttl), EMPTY, c);
    CreateUserHeals(EMPTY, c, ttl, 0);
    UpdateUserExact(s1, d, ttl);
    UpdateAfterCreateErasesPassword(EMPTY, c, d, ttl);
  }

  // ---- The other fields --------------------------------------------------------------------------

  /** The copy has what the row has in each field that the patch leaves alone. */
  predicate AgreesElsewhere(copy: User, row: User, patch: User) {
    && (patch.firstName == "" ==> copy.firstName == row.firstName)
    && (patch.lastName == "" ==> copy.lastName == row.lastName)
    && (patch.nickname == "" ==> copy.nickname == row.nickname)
    && (patch.country == "" ==> copy.country == row.country)
    && (patch.email == "" ==> copy.email == row.email)
  }

  /** A committed update changes what is visible of its row by the patch alone exactly when the copy it
      read agrees with the row elsewhere. Otherwise it writes the stale fields back, and what would
      have expired with the cache entry stays in the table. */
  lemma UpdatePatchesExactly(s: Sys, c: Call, ttl: Ttl)
    requires c.UpdateCall? && Sound(s.store, ttl) && Committed(s, c, ttl)
    ensures var t, t' := s.store.table, StepUpdate(Cached(ttl), s, c).0.store.table;
            && c.id in t && c.id in t'
            && (Visible(t'[c.id]) == Visible(Patched(t[c.id], c.patch)) <==>
                AgreesElsewhere(CopyRead(s, c), t[c.id], c.patch))
  {
    UpdateStoresCopy(s, c, ttl);
    PatchedAlike(s.store.table[c.id], CopyRead(s, c), c.patch, c.now);
  }

  /** A run in which this happens: on the empty system a user is created; an update of the first name
      commits, but its invalidation fails and loses the DEL of the id key; and then an update that asks
      for nothing, while the stale copy lives, puts the first name back. */
  lemma UpdateIsUndone(c: Call, d: Call, e: Call, ttl: Ttl)
    requires c.CreateCall? && c.hash.Some? && !c.write.execFails && Smooth(c)
    requires d.UpdateCall? && d.id == c.id && PatchesFirstName(d.patch) && d.patch.firstName != c.input.firstName
    requires !d.byId.getFails && !d.write.oldFails && !d.write.execFails
    requires d.write.purge.failed && ById(c.id) in d.write.purge.lost
    requires Faultless(e) && e.id == c.id && PatchesNothing(e.patch) && !e.byId.getFails
    requires d.byId.dt + d.write.purge.dt + e.byId.dt < ttl
    ensures var b := Cached(ttl);
            var (s1, r1) := StepCreate(b, EMPTY, c);
            var (s2, r2) := StepUpdate(b, s1, d);
            var (s3, r3) := StepUpdate(b, s2, e);
            && r1.Returned? && r2 == Failed(ErrInvalidate) && r3.Returned?
            && c.id in s2.store.table && s2.store.table[c.id].firstName == d.patch.firstName
            && !Coherent(s2.store)
            && c.id in s3.store.table && s3.store.table[c.id].firstName == c.input.firstName
  {
    var b := Cached(ttl);
    var (s1, r1) := StepCreate(b, EMPTY, c);
    CreateUserExact(EMPTY, c, ttl);
    CreateUserSound(b, EMPTY, c);
    CreateUserHeals(EMPTY, c, ttl, 0);
    CreatedIsServed(EMPTY, c, ttl);
    FailedPurgeLeaves(s1, d, ttl);
    var s2 := StepUpdate(b, s1, d).0;
    EmptyPatchWritesBack(s2, e, ttl);
  }

  predicate PatchesNothing(p: User) {
    p.firstName == "" && p.lastName == "" && p.nickname == "" && p.country == "" && p.email == ""
  }

  predicate PatchesFirstName(p: User) {
    p.firstName != "" && p.lastName == "" && p.nickname == "" && p.country == "" && p.email == ""
  }

  /** The update commits, and the copy it was served stays in the cache. */
  lemma FailedPurgeLeaves(s: Sys, d: Call, ttl: Ttl)
    requires d.UpdateCall? && ServedFromCache(s, d) && PatchesFirstName(d.patch) && Heals(s.store, ttl, 0)
    requires s.store.table.Keys == {d.id} && !d.write.oldFails && !d.write.execFails
    requires d.write.purge.failed && ById(d.id) in d.write.purge.lost
    requires s.store.table[d.id].firstName != d.patch.firstName
    ensures var (s', r) := StepUpdate(Cached(ttl), s, d);
            && r == Failed(ErrInvalidate) && Sound(s'.store, ttl) && !Coherent(s'.store)
            && s'.store.table.Keys == {d.id} && s'.store.table[d.id].firstName == d.patch.firstName
            && ById(d.id) in s'.store.cache && s'.store.cache[ById(d.id)] == s.store.cache[ById(d.id)]
            && s'.store.clock == s.store.clock + d.byId.dt + d.write.purge.dt
  {
    var t, copy := s.store.table, s.store.cache[ById(d.id)].user;
    UpdateUserHeals(s, d, ttl, 0);
    FindIs(t, ById(d.id), d.id);
    var u := Patched(copy, d.patch);
    assert UpdateRow(t, u, d.now, false).Ok?;
    var s' := StepUpdate(Cached(ttl), s, d).0;
    assert s'.store.cache[ById(d.id)].user == copy && copy.firstName != d.patch.firstName;
  }

  /** A lone row is overwritten with the served copy by an update that asks for nothing. */
  lemma EmptyPatchWritesBack(s: Sys, e: Call, ttl: Ttl)
    requires Faultless(e) && ServedFromCache(s, e) && PatchesNothing(e.patch) && Sound(s.store, ttl)
    requires s.store.table.Keys == {e.id}
    ensures var (s', r) := StepUpdate(Cached(ttl), s, e);
            && r.Returned? && e.id in s'.store.table
            && s'.store.table[e.id].firstName == s.store.cache[ById(e.id)].user.firstName
  {
    var b := Cached(ttl);
    ReadsCopy(s, e, ttl);
    var (s1, r) := GetBy(b, s.store, ById(e.id), e.byId);
    var copy := s.store.cache[ById(e.id)].user;
    assert r == Ok(copy) && Patched(copy, e.patch) == copy;
    SaveUserExact(s.(store := s1), copy, e, ttl);
  }

  lemma PatchedAlike(row: User, copy: User, patch: User, now: int)
    ensures Visible(Rewritten(row, Patched(copy, patch), now)) == Visible(Patched(row, patch)) <==>
            AgreesElsewhere(copy, row, patch)
  {
    var (u, v) := (Visible(Rewritten(row, Patched(copy, patch), now)), Visible(Patched(row, patch)));
    assert u == v <==> u.firstName == v.firstName && u.lastName == v.lastName && u.nickname == v.nickname
                       && u.country == v.country && u.email == v.email;
  }

  /** From a coherent cache the response shows the row as it is now, but with the old updated_at. */
  lemma UpdateResponseShows(s: Sys, c: Call, ttl: Ttl)
    requires c.UpdateCall? && Heals(s.store, ttl, 0)
    ensures var (s', r) := StepUpdate(Cached(ttl), s, c);
            r.Returned? ==>
              && c.id in s.store.table && c.id in s'.store.table
              && var row, row' := s.store.table[c.id], s'.store.table[c.id];
              && r.user.updatedAt == row.updatedAt && row'.updatedAt == c.now
              && Visible(r.user) == Visible(row')
  {
    if Committed(s, c, ttl) {
      UpdateStoresCopy(s, c, ttl);
      assert Erase(CopyRead(s, c)) == Erase(s.store.table[c.id]);
      SameButPassword(CopyRead(s, c), s.store.table[c.id]);
    }
  }

  lemma SameButPassword(u: User, v: User)
    requires Erase(u) == Erase(v)
    ensures u == v.(password := u.password)
  {
  }
}
