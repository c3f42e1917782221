/** What creating and updating a user promise: who is admitted, what is stored, how patches compose. */
module Requests {
  import opened Domain
  import opened Database
  import opened Cache
  import opened Service
  import opened Transparency
  import opened EventHistory
  import opened Retelling

  // ---- The table stays well formed, whatever the cache holds --------------------------------------

  lemma GetByReads(b: Backend, s: Store, k: Key, o: Read)
    ensures GetBy(b, s, k, o).0.table == s.table
  {
  }

  lemma WritesKeepTableOk(b: Backend, s: Store, u: User, now: int, o: Write)
    requires TableOk(s.table)
    ensures TableOk(Add(b, s, u, o).0.table)
    ensures TableOk(Change(b, s, u, now, o).0.table)
    ensures TableOk(Remove(b, s, u.id, o).0.table)
  {
    InsertAdmitsExactly(s.table, u);
    UpdateAdmitsExactly(s.table, u, now);
    DeleteKeepsTableOk(s.table, u.id);
  }

  lemma CreateKeepsTableOk(b: Backend, s: Sys, c: Call)
    requires c.CreateCall? && TableOk(s.store.table)
    ensures TableOk(StepCreate(b, s, c).0.store.table)
  {
    if c.hash.Some? {
      var u := NewUser(c);
      GetByReads(b, s.store, ByEmail(u.email), c.byEmail);
      var s1 := GetBy(b, s.store, ByEmail(u.email), c.byEmail).0;
      GetByReads(b, s1, ByNickname(u.nickname), c.byNickname);
      WritesKeepTableOk(b, GetBy(b, s1, ByNickname(u.nickname), c.byNickname).0, u, 0, c.write);
    }
  }

  lemma UpdateKeepsTableOk(b: Backend, s: Sys, c: Call)
    requires c.UpdateCall? && TableOk(s.store.table)
    ensures TableOk(StepUpdate(b, s, c).0.store.table)
  {
    GetByReads(b, s.store, ById(c.id), c.byId);
    var (s1, r) := GetBy(b, s.store, ById(c.id), c.byId);
    if r.Ok? {
      GetByReads(b, s1, ByEmail(c.patch.email), c.byEmail);
      WritesKeepTableOk(b, EmailGuard(b, s1, r.value, c).0, Patched(r.value, c.patch), c.now, c.write);
    }
  }

  lemma RemoveKeepsTableOk(b: Backend, s: Sys, c: Call)
    requires c.DeleteCall? && TableOk(s.store.table)
    ensures TableOk(StepDelete(b, s, c).0.store.table)
  {
    GetByReads(b, s.store, ById(c.id), c.byId);
    var s1 := GetBy(b, s.store, ById(c.id), c.byId).0;
    WritesKeepTableOk(b, s1, User(c.id, "", "", "", "", "", "", 0, 0), 0, c.write);
  }

  lemma RequestKeepsTableOk(b: Backend, s: Sys, c: Call)
    requires TableOk(s.store.table)
    ensures TableOk(Step(b, s, c).0.store.table)
  {
    match c
    case CreateCall(_, _, _, _, _, _, _, _, _) => CreateKeepsTableOk(b, s, c);
    case GetCall(_, _) => GetByReads(b, s.store, ById(c.id), c.byId);
    case UpdateCall(_, _, _, _, _, _, _) => UpdateKeepsTableOk(b, s, c);
    case DeleteCall(_, _, _, _) => RemoveKeepsTableOk(b, s, c);
    case ElapseCall(_) =>
  }

  /** Emails and nicknames stay unique over every run, from any cache contents and with any faults. */
  lemma {:induction false} RunKeepsTableOk(b: Backend, s: Sys, cs: seq<Call>)
    requires TableOk(s.store.table)
    ensures TableOk(Run(b, s, cs).store.table)
    decreases |cs|
  {
    if cs != [] {
      RequestKeepsTableOk(b, s, cs[0]);
      RunKeepsTableOk(b, Step(b, s, cs[0]).0, cs[1..]);
    }
  }

  // ---- CreateUser ------------------------------------------------------------------------------

  ghost predicate EmailInUse(t: Table, email: string) {
    exists id :: id in t && t[id].email == email
  }

  ghost predicate NicknameInUse(t: Table, nickname: string) {
    exists id :: id in t && t[id].nickname == nickname
  }

  /** From any cache contents and with any faults, a created user had an unused email and nickname. */
  lemma CreateUserSound(b: Backend, s: Sys, c: Call)
    requires c.CreateCall? && TableOk(s.store.table)
    ensures var (s', r) := StepCreate(b, s, c);
            r.Returned? ==>
              && r.user == NewUser(c)
              && !EmailInUse(s.store.table, c.input.email)
              && !NicknameInUse(s.store.table, c.input.nickname)
              && s'.store.table == s.store.table[c.id := r.user]
  {
    if c.hash.Some? {
      var u := NewUser(c);
      GetByReads(b, s.store, ByEmail(u.email), c.byEmail);
      var s1 := GetBy(b, s.store, ByEmail(u.email), c.byEmail).0;
      GetByReads(b, s1, ByNickname(u.nickname), c.byNickname);
      var s2 := GetBy(b, s1, ByNickname(u.nickname), c.byNickname).0;
      AddInserts(b, s2, u, c.write);
    }
  }

  /** An accepted insert had no clash, and only an accepted insert is reported as a success. */
  lemma AddInserts(b: Backend, s: Store, u: User, o: Write)
    ensures var (s', r) := Add(b, s, u, o);
            r.Ok? ==>
              && !EmailInUse(s.table, u.email) && !NicknameInUse(s.table, u.nickname)
              && s'.table == s.table[u.id := u]
  {
  }

  /** With a coherent cache a rejection is never wrong, whatever faults occur. */
  lemma CreateUserRejectsTruly(s: Sys, c: Call, ttl: Ttl)
    requires c.CreateCall? && Heals(s.store, ttl, 0)
    ensures var r := StepCreate(Cached(ttl), s, c).1;
            && (r == Failed(ErrEmailTaken) ==> EmailInUse(s.store.table, c.input.email))
            && (r == Failed(ErrNicknameTaken) ==> NicknameInUse(s.store.table, c.input.nickname))
  {
    if c.hash.Some? {
      var u, b := NewUser(c), Cached(ttl);
      GetByHeals(s.store, ttl, ByEmail(u.email), c.byEmail, 0);
      GetByAnswers(s.store, ttl, ByEmail(u.email), c.byEmail, 0);
      var (s1, r1) := GetBy(b, s.store, ByEmail(u.email), c.byEmail);
      GetByHeals(s1, ttl, ByNickname(u.nickname), c.byNickname, 0);
      GetByAnswers(s1, ttl, ByNickname(u.nickname), c.byNickname, 0);
      assert r1.Ok? ==> Erase(s.store.table[r1.value.id]).email == u.email;
      var r2 := GetBy(b, s1, ByNickname(u.nickname), c.byNickname).1;
      assert r2.Ok? ==> Erase(s.store.table[r2.value.id]).nickname == u.nickname;
    }
  }

  /** A lookup in a coherent cache, with the database and the fill working, succeeds exactly when
      some row owns the key. */
  lemma LookupExact(s: Store, ttl: Ttl, k: Key, o: Read)
    requires Heals(s, ttl, 0) && SmoothRead(o)
    ensures GetBy(Cached(ttl), s, k, o).1.Ok? <==> exists id :: id in s.table && Owns(s.table[id], k)
  {
    if !o.getFails && Peek(Elapse(s, o.dt), k).Some? {
      assert Owns(s.table[s.cache[k].user.id], k);
    }
  }

  /** Without faults and with a coherent cache, CreateUser answers by the table alone: email first. */
  lemma CreateUserExact(s: Sys, c: Call, ttl: Ttl)
    requires c.CreateCall? && c.hash.Some? && Heals(s.store, ttl, 0) && Smooth(c)
    requires !c.write.execFails && c.id !in s.store.table
    ensures var t, r := s.store.table, StepCreate(Cached(ttl), s, c).1;
            r == if EmailInUse(t, c.input.email) then Failed(ErrEmailTaken)
                 else if NicknameInUse(t, c.input.nickname) then Failed(ErrNicknameTaken)
                 else Returned(NewUser(c))
  {
    var t, u, b := s.store.table, NewUser(c), Cached(ttl);
    GetByHeals(s.store, ttl, ByEmail(u.email), c.byEmail, 0);
    LookupExact(s.store, ttl, ByEmail(u.email), c.byEmail);
    assert (exists id :: id in t && Owns(t[id], ByEmail(u.email))) <==> EmailInUse(t, u.email);
    var s1 := GetBy(b, s.store, ByEmail(u.email), c.byEmail).0;
    GetByHeals(s1, ttl, ByNickname(u.nickname), c.byNickname, 0);
    LookupExact(s1, ttl, ByNickname(u.nickname), c.byNickname);
    assert (exists id :: id in t && Owns(t[id], ByNickname(u.nickname))) <==> NicknameInUse(t, u.nickname);
  }

  // ---- UpdateUser ------------------------------------------------------------------------------

  /** An update call that meets no fault. GETs may still fail. */
  predicate Faultless(c: Call) {
    c.UpdateCall? && Smooth(c) && !c.write.execFails
  }

  /** The row an update asks for. */
  function Wanted(t: Table, c: Call): User
    requires c.UpdateCall? && c.id in t
  {
    Patched(t[c.id], c.patch)
  }

  /** Without faults and with a coherent cache, UpdateUser answers by the table alone. */
  lemma UpdateUserExact(s: Sys, c: Call, ttl: Ttl)
    requires Faultless(c) && Heals(s.store, ttl, 0)
    ensures var t, (s', r) := s.store.table, StepUpdate(Cached(ttl), s, c);
            if c.id !in t then r == Failed(ErrNotFound)
            else if EmailClash(t, Wanted(t, c)) then r == Failed(ErrEmailTaken)
            else if NicknameClash(t, Wanted(t, c)) then r == Failed(ErrNicknameTaken)
            else
              && r.Returned? && Erase(r.user) == Erase(Wanted(t, c))
              && s'.store.table == t[c.id := Rewritten(t[c.id], r.user, c.now)]
              && Heals(s'.store, ttl, 0)
  {
    var t, b := s.store.table, Cached(ttl);
    UpdateUserHeals(s, c, ttl, 0);
    GetByHeals(s.store, ttl, ById(c.id), c.byId, 0);
    GetByAnswers(s.store, ttl, ById(c.id), c.byId, 0);
    LookupExact(s.store, ttl, ById(c.id), c.byId);
    var (s1, r) := GetBy(b, s.store, ById(c.id), c.byId);
    if r.Ok? {
      EmailGuardHeals(s1, r.value, c, ttl, 0);
      EmailGuardExact(s1, r.value, c, ttl);
      var s2 := EmailGuard(b, s1, r.value, c).0;
      SaveUserExact(s.(store := s2), Patched(r.value, c.patch), c, ttl);
    }
  }

  lemma EmailGuardExact(s: Store, u: User, c: Call, ttl: Ttl)
    requires c.UpdateCall? && Heals(s, ttl, 0) && SmoothRead(c.byEmail)
    requires u.id == c.id && c.id in s.table && Erase(u) == Erase(s.table[c.id])
    ensures EmailGuard(Cached(ttl), s, u, c).1 <==> EmailClash(s.table, Wanted(s.table, c))
  {
    var t, k := s.table, ByEmail(c.patch.email);
    LookupExact(s, ttl, k, c.byEmail);
    GetByAnswers(s, ttl, k, c.byEmail, 0);
    var r := GetBy(Cached(ttl), s, k, c.byEmail).1;
    if r.Ok? {
      assert Erase(t[r.value.id]).email == c.patch.email;
    }
    assert t[c.id].email == Erase(u).email;
    assert forall id | id in t :: Owns(t[id], k) <==> t[id].email == c.patch.email;
  }

  lemma SaveUserExact(s: Sys, u: User, c: Call, ttl: Ttl)
    requires c.UpdateCall? && TableOk(s.store.table) && SmoothWrite(c.write) && !c.write.execFails
    requires u.id in s.store.table
    ensures var t, (s', r) := s.store.table, SaveUser(Cached(ttl), s, u, c);
            if NicknameClash(t, u) then r == Failed(ErrNicknameTaken)
            else if EmailClash(t, u) then r == Failed(ErrEmailTaken)
            else r == Returned(u) && s'.store.table == t[u.id := Rewritten(t[u.id], u, c.now)]
  {
    var t := s.store.table;
    FindIs(t, ById(u.id), u.id);
    UpdateAdmitsExactly(t, u, c.now);
    var t' := UpdateRow(t, u, c.now, false);
    if t'.Ok? {
      FindIs(t'.value, ById(u.id), u.id);
    }
  }

  /** One update by the first patch patched with the second does what the two in sequence do. */
  lemma PatchComposition(s: Sys, c: Call, d: Call, both: Call, ttl: Ttl)
    requires Faultless(c) && Faultless(d) && Faultless(both)
    requires c.id == d.id == both.id && both.patch == Patched(c.patch, d.patch)
    requires Heals(s.store, ttl, 0)
    ensures var (s1, r1) := StepUpdate(Cached(ttl), s, c);
            var (s2, r2) := StepUpdate(Cached(ttl), s1, d);
            var (s3, r3) := StepUpdate(Cached(ttl), s, both);
            r1.Returned? && r2.Returned? ==> r3.Returned? && View(s3.store.table) == View(s2.store.table)
  {
    var (s1, r1) := StepUpdate(Cached(ttl), s, c);
    UpdateUserView(s, c, ttl);
    if r1.Returned? {
      UpdateUserView(s1, d, ttl);
      UpdateUserView(s, both, ttl);
      WantedComposes(s.store.table, s1.store.table, c, d, both);
    }
  }

  /** What UpdateUserExact says of success and of the visible table. */
  lemma UpdateUserView(s: Sys, c: Call, ttl: Ttl)
    requires Faultless(c) && Heals(s.store, ttl, 0)
    ensures var t, (s', r) := s.store.table, StepUpdate(Cached(ttl), s, c);
            && (r.Returned? <==> c.id in t && !EmailClash(t, Wanted(t, c)) && !NicknameClash(t, Wanted(t, c)))
            && (r.Returned? ==>
                  && c.id in s'.store.table && s'.store.table == t[c.id := s'.store.table[c.id]]
                  && Visible(s'.store.table[c.id]) == Visible(Wanted(t, c))
                  && View(s'.store.table) == View(t)[c.id := Visible(Wanted(t, c))]
                  && Heals(s'.store, ttl, 0))
  {
    UpdateUserExact(s, c, ttl);
  }

  lemma WantedComposes(t: Table, t1: Table, c: Call, d: Call, both: Call)
    requires c.UpdateCall? && d.UpdateCall? && both.UpdateCall?
    requires c.id == d.id == both.id && both.patch == Patched(c.patch, d.patch) && c.id in t
    requires TableOk(t)
    requires c.id in t1 && t1 == t[c.id := t1[c.id]] && Visible(t1[c.id]) == Visible(Wanted(t, c))
    ensures Visible(Wanted(t1, d)) == Visible(Wanted(t, both))
    ensures EmailClash(t1, Wanted(t1, d)) <==> EmailClash(t, Wanted(t, both))
    ensures NicknameClash(t1, Wanted(t1, d)) <==> NicknameClash(t, Wanted(t, both))
  {
    var w, w1 := Wanted(t, both), Wanted(t1, d);
    assert Visible(t1[c.id]).email == Visible(Wanted(t, c)).email;
    assert Visible(w).email == Visible(w1).email && Visible(w).nickname == Visible(w1).nickname;
    assert forall id | id in t && id != c.id :: id in t1 && t1[id] == t[id];
    assert forall id | id in t1 && id != c.id :: id in t && t1[id] == t[id];
  }

  /** A patch that asks for what is there is admitted and changes nothing visible. */
  lemma PatchIdentity(s: Sys, c: Call, ttl: Ttl)
    requires Faultless(c) && Heals(s.store, ttl, 0) && c.id in s.store.table
    requires Visible(Wanted(s.store.table, c)) == Visible(s.store.table[c.id])
    ensures var (s', r) := StepUpdate(Cached(ttl), s, c);
            r.Returned? && View(s'.store.table) == View(s.store.table)
  {
    var t := s.store.table;
    UpdateUserExact(s, c, ttl);
    assert Visible(Wanted(t, c)).email == Visible(t[c.id]).email;
    assert Visible(Wanted(t, c)).nickname == Visible(t[c.id]).nickname;
  }

  /** Applying a patch a second time is admitted and changes nothing visible. */
  lemma PatchIdempotence(s: Sys, c: Call, d: Call, ttl: Ttl)
    requires Faultless(c) && Faultless(d) && c.id == d.id && c.patch == d.patch
    requires Heals(s.store, ttl, 0)
    ensures var (s1, r1) := StepUpdate(Cached(ttl), s, c);
            var (s2, r2) := StepUpdate(Cached(ttl), s1, d);
            r1.Returned? ==> r2.Returned? && View(s2.store.table) == View(s1.store.table)
  {
    UpdateUserExact(s, c, ttl);
    var (s1, r1) := StepUpdate(Cached(ttl), s, c);
    if r1.Returned? {
      var row := s1.store.table[c.id];
      assert Visible(row) == Visible(Wanted(s.store.table, c));
      VisiblePatch(row, Wanted(s.store.table, c), c.patch);
      PatchIdentity(s1, d, ttl);
    }
  }

  /** Patching looks only at what is visible. */
  lemma VisiblePatch(u: User, v: User, p: User)
    requires Visible(u) == Visible(v)
    ensures Visible(Patched(u, p)) == Visible(Patched(v, p))
  {
  }

  // ---- Where runs start ----------------------------------------------------------------------------

  const EMPTY := Sys(Store(map[], map[], 0), [], {})

  /** The freshly migrated, empty system meets what the theorems about runs ask of their first state. */
  lemma EmptySystemStarts(ttl: Ttl)
    ensures Heals(EMPTY.store, ttl, 0) && LifecycleInv(EMPTY, ttl, 0) && Replays(EMPTY) && Mirrors(EMPTY, EMPTY, ttl)
    ensures Traceable(EMPTY, ttl)
  {
  }

  /** So does a process started over a table and a cache that are in use already: over any sound store
      with horizon one ttl from now, over a coherent one with none, and with a log that starts empty. */
  lemma RunningSystemStarts(s: Sys, ttl: Ttl)
    requires Sound(s.store, ttl)
    ensures Heals(s.store, ttl, s.store.clock + ttl)
    ensures Coherent(s.store) <==> Heals(s.store, ttl, 0)
    ensures Coherent(s.store) ==> Mirrors(s, s, ttl)
    ensures s.log == [] && s.store.table.Keys <= s.issued ==> LifecycleInv(s, ttl, s.store.clock + ttl)
  {
  }
}
