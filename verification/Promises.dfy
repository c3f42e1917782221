/** What each operation promises its caller, said of fields, rows, entries and events. */
module Promises {
  import opened Domain
  import opened Database
  import opened Cache
  import opened Events
  import opened Service
  import opened EventHistory
  import opened Transparency
  import opened Requests
  import opened Overwrites

  // ---- Copies ------------------------------------------------------------------------------------

  /** Same in every field that a client sees and a client may set. */
  predicate SameDetails(u: User, v: User) {
    && u.firstName == v.firstName && u.lastName == v.lastName && u.nickname == v.nickname
    && u.email == v.email && u.country == v.country
  }

  /** JSON keeps every field but the password; two users look alike in events when they differ in the
      password and updated_at only. */
  lemma CopiesKeepFields(u: User, v: User)
    ensures var e := Erase(u);
            && e.id == u.id && SameDetails(e, u) && e.password == ""
            && e.createdAt == u.createdAt && e.updatedAt == u.updatedAt
    ensures Visible(u) == Visible(v) <==> u.id == v.id && SameDetails(u, v) && u.createdAt == v.createdAt
  {
    var (x, y) := (Visible(u), Visible(v));
    assert x == y <==> x.id == y.id && SameDetails(x, y) && x.createdAt == y.createdAt;
  }

  // ---- The repository behind the cache -------------------------------------------------------------

  /** Another row has the value of a UNIQUE column. */
  ghost predicate EmailOfAnother(t: Table, id: Uuid, email: string) {
    exists other :: other in t && other != id && t[other].email == email
  }

  ghost predicate NicknameOfAnother(t: Table, id: Uuid, nickname: string) {
    exists other :: other in t && other != id && t[other].nickname == nickname
  }

  /** Under each of the user's keys, lost ones aside, there is a copy for a full ttl, and under other
      keys what was there before. */
  ghost predicate CachedAfter(s: Store, s': Store, u: User, ttl: Ttl, lost: set<Key>) {
    forall k ::
      if Owns(u, k) && k !in lost then
        k in s'.cache && s'.cache[k].user == Erase(u) && s'.cache[k].deadline == s'.clock + ttl
      else
        (k in s'.cache <==> k in s.cache) && (k in s.cache ==> s'.cache[k] == s.cache[k])
  }

  ghost predicate Hits(s: Store, k: Key, o: Read) {
    !o.getFails && k in s.cache && s.clock + o.dt < s.cache[k].deadline
  }

  /** A lookup answers with a live entry as it stands. Otherwise it answers with the row that owns the
      key, after caching it under all its keys, or reports which call failed. */
  lemma {:induction false} LookupAnswersExactly(s: Store, ttl: Ttl, k: Key, o: Read)
    requires TableOk(s.table)
    ensures var (s', r) := GetBy(Cached(ttl), s, k, o);
            && s'.table == s.table
            && (Hits(s, k, o) ==> r == Ok(s.cache[k].user) && s'.cache == s.cache)
            && (!Hits(s, k, o) && o.dbFails ==> r == Err(ErrDatabase) && s'.cache == s.cache)
            && (!Hits(s, k, o) && !o.dbFails && (forall id | id in s.table :: !Owns(s.table[id], k)) ==>
                  r == Err(ErrNotFound) && s'.cache == s.cache)
            && (forall id | id in s.table && Owns(s.table[id], k) && !Hits(s, k, o) && !o.dbFails ::
                  && r == (if o.fill.failed then Err(ErrFill) else Ok(s.table[id]))
                  && CachedAfter(s, s', s.table[id], ttl, o.fill.Lost()))
  {
    forall id | id in s.table && Owns(s.table[id], k) && !Hits(s, k, o) && !o.dbFails
      ensures var (s', r) := GetBy(Cached(ttl), s, k, o);
              && r == (if o.fill.failed then Err(ErrFill) else Ok(s.table[id]))
              && CachedAfter(s, s', s.table[id], ttl, o.fill.Lost())
    {
      MissReadsRow(s, ttl, k, o, id);
    }
  }

  lemma {:induction false} MissReadsRow(s: Store, ttl: Ttl, k: Key, o: Read, id: Uuid)
    requires TableOk(s.table) && id in s.table && Owns(s.table[id], k) && !Hits(s, k, o) && !o.dbFails
    ensures var (s', r) := GetBy(Cached(ttl), s, k, o);
            && r == (if o.fill.failed then Err(ErrFill) else Ok(s.table[id]))
            && CachedAfter(s, s', s.table[id], ttl, o.fill.Lost())
  {
    FindIs(s.table, k, id);
    FillCaches(Elapse(s, o.dt), s.table[id], ttl, o.fill);
  }

  lemma FillCaches(s: Store, u: User, ttl: Ttl, o: Pipe)
    ensures CachedAfter(s, Filled(s, u, ttl, o), u, ttl, o.Lost())
  {
  }

  /** Which creations succeed, and what is reported of the others. */
  lemma AddAnswersExactly(s: Store, u: User, ttl: Ttl, o: Write)
    ensures var t, (s', r) := s.table, Add(Cached(ttl), s, u, o);
            var clash := NicknameOfAnother(t, u.id, u.nickname) || EmailOfAnother(t, u.id, u.email);
            && (o.execFails || u.id in t ==> r == Err(ErrDatabase))
            && (!o.execFails && u.id !in t && clash ==>
                  r == Err(if NicknameOfAnother(t, u.id, u.nickname) then ErrNicknameTaken else ErrEmailTaken))
            && (o.execFails || u.id in t || clash ==> s' == s)
            && (!o.execFails && u.id !in t && !clash ==>
                  && s'.table == t[u.id := u]
                  && r == (if o.fill.failed then Err(ErrFill) else Ok(()))
                  && CachedAfter(s, s', u, ttl, o.fill.Lost()))
  {
    assert NicknameClash(s.table, u) <==> NicknameOfAnother(s.table, u.id, u.nickname);
    assert EmailClash(s.table, u) <==> EmailOfAnother(s.table, u.id, u.email);
    FillCaches(s.(table := s.table[u.id := u]), u, ttl, o.fill);
  }

  /** The statement of an update is carried out. */
  ghost predicate Updatable(t: Table, u: User, o: Write) {
    && !o.oldFails && !o.execFails && u.id in t
    && !NicknameOfAnother(t, u.id, u.nickname) && !EmailOfAnother(t, u.id, u.email)
  }

  /** Which updates are carried out, and what is reported: every failing call after the commit is. */
  lemma ChangeAnswersExactly(s: Store, u: User, now: int, ttl: Ttl, o: Write)
    requires TableOk(s.table)
    ensures var t, (s', r) := s.table, Change(Cached(ttl), s, u, now, o);
            && (!Updatable(t, u, o) ==> s' == s && r.Err?)
            && (o.oldFails ==> r == Err(ErrDatabase))
            && (!o.oldFails && u.id !in t ==> r == Err(ErrNotFound))
            && (!o.oldFails && u.id in t && o.execFails ==> r == Err(ErrDatabase))
            && (!o.oldFails && u.id in t && !o.execFails && !Updatable(t, u, o) ==>
                  r == Err(if NicknameOfAnother(t, u.id, u.nickname) then ErrNicknameTaken else ErrEmailTaken))
            && (Updatable(t, u, o) ==>
                  && u.id in s'.table && s'.table == t[u.id := s'.table[u.id]]
                  && RowRewritten(t[u.id], s'.table[u.id], u, now)
                  && r == if o.purge.failed then Err(ErrInvalidate)
                          else if o.rereadFails then Err(ErrDatabase)
                          else if o.fill.failed then Err(ErrFill)
                          else Ok(()))
  {
    assert NicknameClash(s.table, u) <==> NicknameOfAnother(s.table, u.id, u.nickname);
    assert EmailClash(s.table, u) <==> EmailOfAnother(s.table, u.id, u.email);
    if u.id in s.table { FindIs(s.table, ById(u.id), u.id); }
    UpdateAdmitsExactly(s.table, u, now);
    var t := UpdateRow(s.table, u, now, false);
    if t.Ok? { FindIs(t.value, ById(u.id), u.id); }
  }

  /** An UPDATE writes every column but two: id and created_at stay, updated_at is the clock's. */
  predicate RowRewritten(row: User, row': User, u: User, now: int) {
    && row'.id == row.id && row'.createdAt == row.createdAt && row'.updatedAt == now
    && SameDetails(row', u) && row'.password == u.password
  }

  /** After an update that went through, the new row is cached under all its keys, and nothing else of
      that id is left of a sound and coherent cache. */
  lemma ChangeCaches(s: Store, u: User, now: int, ttl: Ttl, o: Write)
    requires Sound(s, ttl) && Coherent(s)
    ensures var (s', r) := Change(Cached(ttl), s, u, now, o);
            r.Ok? ==>
              u.id in s'.table && forall k ::
                if Owns(s'.table[u.id], k) then
                  k in s'.cache && s'.cache[k] == Entry(Erase(s'.table[u.id]), s'.clock + ttl)
                else k in s'.cache ==> s'.cache[k].user.id != u.id
  {
    ChangeAnswersExactly(s, u, now, ttl, o);
    if Updatable(s.table, u, o) {
      FindIs(s.table, ById(u.id), u.id);
      UpdateAdmitsExactly(s.table, u, now);
      FindIs(UpdateRow(s.table, u, now, false).value, ById(u.id), u.id);
      CopiesOwn(s, ttl, u.id);
    }
  }

  /** In a coherent cache a copy of a row sits under a key of that row. */
  lemma CopiesOwn(s: Store, ttl: Ttl, id: Uuid)
    requires Sound(s, ttl) && Coherent(s) && id in s.table
    ensures forall k | k in s.cache && s.cache[k].user.id == id :: Owns(s.table[id], k)
  {
    forall k | k in s.cache && s.cache[k].user.id == id ensures Owns(s.table[id], k) {
      assert Owns(Erase(s.table[id]), k);
    }
  }

  lemma RemoveAnswersExactly(s: Store, id: Uuid, ttl: Ttl, o: Write)
    requires TableOk(s.table)
    ensures var t, (s', r) := s.table, Remove(Cached(ttl), s, id, o);
            && (o.oldFails ==> r == Err(ErrDatabase) && s' == s)
            && (!o.oldFails && id !in t ==> r == Err(ErrNotFound) && s' == s)
            && (!o.oldFails && id in t && o.execFails ==> r == Err(ErrDatabase) && s' == s)
            && (!o.oldFails && id in t && !o.execFails ==>
                  && s'.table == t - {id}
                  && r == (if o.purge.failed then Err(ErrInvalidate) else Ok(()))
                  && (r.Ok? ==> s'.cache == map k | k in s.cache && !Owns(t[id], k) :: s.cache[k]))
  {
    if id in s.table { FindIs(s.table, ById(id), id); }
  }

  // ---- Events ------------------------------------------------------------------------------------

  /** The event says what happened to whom, shows the user without its password, and is stamped. */
  predicate Carries(e: Event, kind: EventKind, u: User, o: Publish) {
    && e.kind == kind && e.eventId == o.eventId && e.timestamp == o.at && e.version == "1.0"
    && e.user.id == u.id && SameDetails(e.user, u) && e.user.password == ""
    && e.user.createdAt == u.createdAt && e.user.updatedAt == u.updatedAt
  }

  /** One such event was appended, or none because publication failed. */
  ghost predicate Published(log: seq<Event>, log': seq<Event>, kind: EventKind, u: User, o: Publish) {
    if o.fails then log' == log
    else |log'| == |log| + 1 && log'[..|log|] == log && Carries(log'[|log|], kind, u, o)
  }

  lemma AnnouncePublishes(log: seq<Event>, kind: EventKind, u: User, o: Publish)
    ensures Published(log, Announce(log, kind, u, o), kind, u, o)
  {
  }

  // ---- CreateUser --------------------------------------------------------------------------------

  /** A created user is what the client sent, with the new id, the hash and the timestamps; so it is
      stored, and so it is announced. */
  lemma CreateUserStores(b: Backend, s: Sys, c: Call)
    requires c.CreateCall? && TableOk(s.store.table)
    ensures var (s', r) := StepCreate(b, s, c);
            && (c.hash.None? ==> r == Failed(ErrHash) && s' == s)
            && (r.Returned? ==>
                  && c.hash.Some? && c.id in s'.store.table && s'.store.table[c.id] == r.user
                  && SameDetails(r.user, c.input)
                  && r.user.id == c.id && r.user.password == c.hash.value
                  && r.user.createdAt == c.createdAt && r.user.updatedAt == c.updatedAt
                  && Published(s.log, s'.log, Created, r.user, c.publish))
            && (!r.Returned? ==> r.Failed? && s'.log == s.log)
  {
    CreateUserSound(b, s, c);
    if c.hash.Some? { AnnouncePublishes(s.log, Created, NewUser(c), c.publish); }
  }

  /** Whatever happens to the two lookups, a creation whose insert and fill work succeeds exactly when
      email and nickname are free, and otherwise says truly which is taken. */
  lemma CreateUserAdmits(s: Sys, c: Call, ttl: Ttl)
    requires c.CreateCall? && c.hash.Some? && Heals(s.store, ttl, 0)
    requires c.id !in s.store.table && !c.write.execFails && !c.write.fill.failed
    ensures var t, r := s.store.table, StepCreate(Cached(ttl), s, c).1;
            && (r.Returned? <==> !EmailInUse(t, c.input.email) && !NicknameInUse(t, c.input.nickname))
            && (r.Returned? || r == Failed(ErrEmailTaken) || r == Failed(ErrNicknameTaken))
            && (r == Failed(ErrEmailTaken) ==> EmailInUse(t, c.input.email))
            && (r == Failed(ErrNicknameTaken) ==> NicknameInUse(t, c.input.nickname))
  {
    CreateUserRejectsTruly(s, c, ttl);
    CreateUserSound(Cached(ttl), s, c);
    var u, b := NewUser(c), Cached(ttl);
    GetByHeals(s.store, ttl, ByEmail(u.email), c.byEmail, 0);
    var s1 := GetBy(b, s.store, ByEmail(u.email), c.byEmail).0;
    GetByHeals(s1, ttl, ByNickname(u.nickname), c.byNickname, 0);
    var s2 := GetBy(b, s1, ByNickname(u.nickname), c.byNickname).0;
    AddAnswersExactly(s2, u, ttl, c.write);
  }

  /** An error after the commit is reported as such, and so is a statement that fails. */
  lemma CreateUserReports(s: Sys, c: Call, ttl: Ttl)
    requires c.CreateCall? && c.hash.Some? && Heals(s.store, ttl, 0)
    ensures var t, (s', r) := s.store.table, StepCreate(Cached(ttl), s, c);
            && (s'.store.table != t ==>
                  if c.write.fill.failed then r == Failed(ErrFill) else r.Returned?)
            && (c.write.execFails || c.id in t ==>
                  EmailInUse(t, c.input.email) || NicknameInUse(t, c.input.nickname) || r == Failed(ErrDatabase))
  {
    CreateUserRejectsTruly(s, c, ttl);
    var u, b := NewUser(c), Cached(ttl);
    GetByHeals(s.store, ttl, ByEmail(u.email), c.byEmail, 0);
    var s1 := GetBy(b, s.store, ByEmail(u.email), c.byEmail).0;
    GetByHeals(s1, ttl, ByNickname(u.nickname), c.byNickname, 0);
    AddAnswersExactly(GetBy(b, s1, ByNickname(u.nickname), c.byNickname).0, u, ttl, c.write);
  }

  // ---- GetUser -----------------------------------------------------------------------------------

  /** Over any sound cache and with any faults: the user of that id, as a live entry has it, or else as
      the table has it; and nothing but the cache changes. */
  lemma GetUserSound(s: Sys, c: Call, ttl: Ttl)
    requires c.GetCall? && Sound(s.store, ttl)
    ensures var (s', r) := StepGet(Cached(ttl), s, c);
            && s'.store.table == s.store.table && s'.log == s.log && s'.issued == s.issued
            && (r.Returned? ==> r.user.id == c.id)
            && (Hits(s.store, ById(c.id), c.byId) ==> r == Returned(s.store.cache[ById(c.id)].user))
            && (!Hits(s.store, ById(c.id), c.byId) ==>
                  r == if c.byId.dbFails then Failed(ErrDatabase)
                       else if c.id !in s.store.table then Failed(ErrNotFound)
                       else if c.byId.fill.failed then Failed(ErrFill)
                       else Returned(s.store.table[c.id]))
  {
    LookupAnswersExactly(s.store, ttl, ById(c.id), c.byId);
  }

  /** From a coherent cache, with SELECT and fill working, the table decides. */
  lemma GetUserExact(s: Sys, c: Call, ttl: Ttl)
    requires c.GetCall? && Heals(s.store, ttl, 0) && SmoothRead(c.byId)
    ensures var r, t := StepGet(Cached(ttl), s, c).1, s.store.table;
            if c.id in t then r.Returned? && Erase(r.user) == Erase(t[c.id]) else r == Failed(ErrNotFound)
  {
    GetUserSound(s, c, ttl);
    if Hits(s.store, ById(c.id), c.byId) {
      assert Current(s.store.table, s.store.cache[ById(c.id)].user);
    }
  }

  // ---- UpdateUser --------------------------------------------------------------------------------

  /** A field of the patch, unless it is empty, is what the user has now. */
  predicate HasPatch(u: User, p: User) {
    && (p.firstName != "" ==> u.firstName == p.firstName)
    && (p.lastName != "" ==> u.lastName == p.lastName)
    && (p.nickname != "" ==> u.nickname == p.nickname)
    && (p.email != "" ==> u.email == p.email)
    && (p.country != "" ==> u.country == p.country)
  }

  /** Over any sound cache and with any faults, an update that commits stores what the patch names, as
      well as it does in the response, and touches no other row. */
  lemma UpdateUserStores(s: Sys, c: Call, ttl: Ttl)
    requires c.UpdateCall? && Sound(s.store, ttl) && Committed(s, c, ttl)
    ensures var t, (s', r) := s.store.table, StepUpdate(Cached(ttl), s, c);
            && c.id in t && c.id in s'.store.table && s'.store.table == t[c.id := s'.store.table[c.id]]
            && var row, row' := t[c.id], s'.store.table[c.id];
            && HasPatch(row', c.patch)
            && row'.id == c.id && row'.createdAt == row.createdAt && row'.updatedAt == c.now
            && (r.Returned? ==> SameDetails(r.user, row') && r.user.id == c.id && r.user.password == row'.password)
  {
    UpdateStoresCopy(s, c, ttl);
    ReadsCopy(s, c, ttl);
  }

  /** From a coherent cache it stores nothing else: fields that the patch leaves empty stay. */
  lemma UpdateUserKeeps(s: Sys, c: Call, ttl: Ttl)
    requires c.UpdateCall? && Heals(s.store, ttl, 0) && Committed(s, c, ttl)
    ensures var t, (s', r) := s.store.table, StepUpdate(Cached(ttl), s, c);
            && c.id in t && c.id in s'.store.table
            && AgreesElsewhere(s'.store.table[c.id], t[c.id], c.patch)
            && (r.Returned? ==> AgreesElsewhere(r.user, t[c.id], c.patch))
  {
    UpdateStoresCopy(s, c, ttl);
    assert Erase(CopyRead(s, c)) == Erase(s.store.table[c.id]);
    SameButPassword(CopyRead(s, c), s.store.table[c.id]);
  }

  /** An update announces the user it returns, and one that is not returned announces nothing. */
  lemma UpdateUserPublishes(b: Backend, s: Sys, c: Call)
    requires c.UpdateCall?
    ensures var (s', r) := StepUpdate(b, s, c);
            if r.Returned? then Published(s.log, s'.log, Updated, r.user, c.publish)
            else r.Failed? && s'.log == s.log
  {
    var (s1, r) := GetBy(b, s.store, ById(c.id), c.byId);
    if r.Ok? { AnnouncePublishes(s.log, Updated, Patched(r.value, c.patch), c.publish); }
  }

  /** The email and nickname that the row would have. */
  function WantedEmail(row: User, p: User): string {
    if p.email != "" then p.email else row.email
  }

  function WantedNickname(row: User, p: User): string {
    if p.nickname != "" then p.nickname else row.nickname
  }

  /** From a coherent cache, and whatever happens to the lookup that guards the email, an update whose
      other calls work succeeds exactly when the row is there and no other row has its new email or
      nickname; otherwise it says truly what is wrong. */
  lemma UpdateUserAdmits(s: Sys, c: Call, ttl: Ttl)
    requires c.UpdateCall? && Heals(s.store, ttl, 0)
    requires SmoothRead(c.byId) && SmoothWrite(c.write) && !c.write.execFails
    ensures var t, r := s.store.table, StepUpdate(Cached(ttl), s, c).1;
            if c.id !in t then r == Failed(ErrNotFound)
            else
              var email := EmailOfAnother(t, c.id, WantedEmail(t[c.id], c.patch));
              var nickname := NicknameOfAnother(t, c.id, WantedNickname(t[c.id], c.patch));
              && (r.Returned? <==> !email && !nickname)
              && (r.Returned? || (r == Failed(ErrEmailTaken) && email) || (r == Failed(ErrNicknameTaken) && nickname))
  {
    var t, b := s.store.table, Cached(ttl);
    GetByHeals(s.store, ttl, ById(c.id), c.byId, 0);
    GetByAnswers(s.store, ttl, ById(c.id), c.byId, 0);
    LookupAnswersExactly(s.store, ttl, ById(c.id), c.byId);
    var (s1, r) := GetBy(b, s.store, ById(c.id), c.byId);
    if r.Ok? {
      var u := Patched(r.value, c.patch);
      SameButPassword(r.value, t[c.id]);
      EmailGuardHeals(s1, r.value, c, ttl, 0);
      GuardIsTrue(s1, r.value, c, ttl);
      ChangeAnswersExactly(EmailGuard(b, s1, r.value, c).0, u, c.now, ttl, c.write);
    }
  }

  /** The guard stops an update only for an email that another row has. */
  lemma GuardIsTrue(s: Store, u: User, c: Call, ttl: Ttl)
    requires c.UpdateCall? && Heals(s, ttl, 0)
    ensures EmailGuard(Cached(ttl), s, u, c).1 ==> c.patch.email != "" && EmailOfAnother(s.table, c.id, c.patch.email)
  {
    GetByAnswers(s, ttl, ByEmail(c.patch.email), c.byEmail, 0);
    var r := GetBy(Cached(ttl), s, ByEmail(c.patch.email), c.byEmail).1;
    if r.Ok? { assert Erase(s.table[r.value.id]).email == c.patch.email; }
  }

  /** Over any sound cache nobody is refused an email for having it: the user in the way, be it a row
      or a stale copy, is another one. */
  lemma OwnEmailIsFree(s: Sys, c: Call, ttl: Ttl)
    requires c.UpdateCall? && Sound(s.store, ttl)
    requires forall k | k in s.store.cache && s.store.cache[k].user.id != c.id ::
               s.store.cache[k].user.email != c.patch.email
    requires !EmailOfAnother(s.store.table, c.id, c.patch.email)
    requires c.patch.email != ""
    ensures StepUpdate(Cached(ttl), s, c).1 != Failed(ErrEmailTaken)
  {
    var b := Cached(ttl);
    ReadsCopy(s, c, ttl);
    LookupAnswersExactly(s.store, ttl, ById(c.id), c.byId);
    var (s1, r) := GetBy(b, s.store, ById(c.id), c.byId);
    if r.Ok? {
      EmailGuardHeals(s1, r.value, c, ttl, s.store.clock + ttl);
      GuardSeesOthers(s.store, s1, c, ttl, r.value);
      ChangeAnswersExactly(EmailGuard(b, s1, r.value, c).0, Patched(r.value, c.patch), c.now, ttl, c.write);
    }
  }

  lemma GuardSeesOthers(s: Store, s1: Store, c: Call, ttl: Ttl, u: User)
    requires c.UpdateCall? && Sound(s, ttl) && Sound(s1, ttl) && s1.table == s.table
    requires forall k | k in s1.cache :: (k in s.cache && s1.cache[k] == s.cache[k]) || s1.cache[k].user.id == c.id
    requires forall k | k in s.cache && s.cache[k].user.id != c.id :: s.cache[k].user.email != c.patch.email
    requires !EmailOfAnother(s.table, c.id, c.patch.email)
    ensures !EmailGuard(Cached(ttl), s1, u, c).1
  {
    LookupAnswersExactly(s1, ttl, ByEmail(c.patch.email), c.byEmail);
  }

  /** If the user cannot be read, the request ends with that error and writes nothing. */
  lemma UpdateUserFails(s: Sys, c: Call, ttl: Ttl)
    requires c.UpdateCall? && Sound(s.store, ttl) && !Hits(s.store, ById(c.id), c.byId)
    requires c.byId.dbFails || c.id !in s.store.table || c.byId.fill.failed
    ensures var (s', r) := StepUpdate(Cached(ttl), s, c);
            && s'.store.table == s.store.table && s'.log == s.log
            && r == Failed(if c.byId.dbFails then ErrDatabase
                           else if c.id !in s.store.table then ErrNotFound else ErrFill)
  {
    LookupAnswersExactly(s.store, ttl, ById(c.id), c.byId);
  }

  /** The user can be read: from a live entry, or from the table and then cached. */
  ghost predicate Readable(s: Store, id: Uuid, o: Read) {
    Hits(s, ById(id), o) || (!o.dbFails && id in s.table && !o.fill.failed)
  }

  /** An error after the commit is reported as such, and so is a statement that fails. */
  lemma UpdateUserReports(s: Sys, c: Call, ttl: Ttl)
    requires c.UpdateCall? && Sound(s.store, ttl)
    ensures var t, (s', r) := s.store.table, StepUpdate(Cached(ttl), s, c);
            && (s'.store.table != t ==>
                  if c.write.purge.failed then r == Failed(ErrInvalidate)
                  else if c.write.rereadFails then r == Failed(ErrDatabase)
                  else if c.write.fill.failed then r == Failed(ErrFill)
                  else r.Returned?)
            && (Readable(s.store, c.id, c.byId) && c.patch.email == "" ==>
                  && (c.write.oldFails || (c.id in t && c.write.execFails) ==> r == Failed(ErrDatabase))
                  && (!c.write.oldFails && c.id !in t ==> r == Failed(ErrNotFound)))
  {
    var b := Cached(ttl);
    ReadsCopy(s, c, ttl);
    LookupAnswersExactly(s.store, ttl, ById(c.id), c.byId);
    var (s1, r) := GetBy(b, s.store, ById(c.id), c.byId);
    if r.Ok? {
      EmailGuardHeals(s1, r.value, c, ttl, s.store.clock + ttl);
      ChangeAnswersExactly(EmailGuard(b, s1, r.value, c).0, Patched(r.value, c.patch), c.now, ttl, c.write);
    }
  }

  // ---- DeleteUser --------------------------------------------------------------------------------

  /** Over any sound cache and with any faults: done means that the row was there and is gone, and that
      exactly this was announced; otherwise nothing was announced. */
  lemma DeleteUserSound(s: Sys, c: Call, ttl: Ttl)
    requires c.DeleteCall? && Sound(s.store, ttl)
    ensures var t, (s', r) := s.store.table, StepDelete(Cached(ttl), s, c);
            && (r == Done ==> c.id in t && s'.store.table == t - {c.id})
            && (r == Done ==> exists u: User :: u.id == c.id && Published(s.log, s'.log, Deleted, u, c.publish))
            && (r != Done ==> r.Failed? && s'.log == s.log)
            && (r.Failed? && r.error != ErrInvalidate ==> s'.store.table == t)
  {
    LookupAnswersExactly(s.store, ttl, ById(c.id), c.byId);
    var (s1, r) := GetBy(Cached(ttl), s.store, ById(c.id), c.byId);
    if r.Ok? {
      RemoveAnswersExactly(s1, c.id, ttl, c.write);
      AnnouncePublishes(s.log, Deleted, r.value, c.publish);
    }
  }

  /** From a coherent cache and without faults the table decides; no copy of the user is left. */
  lemma DeleteUserExact(s: Sys, c: Call, ttl: Ttl)
    requires c.DeleteCall? && Heals(s.store, ttl, 0) && Smooth(c) && !c.write.execFails
    ensures var t, (s', r) := s.store.table, StepDelete(Cached(ttl), s, c);
            if c.id !in t then r == Failed(ErrNotFound) && s'.store.table == t && s'.log == s.log
            else
              && r == Done && s'.store.table == t - {c.id}
              && (forall k | k in s'.store.cache :: s'.store.cache[k].user.id != c.id)
              && exists u :: Erase(u) == Erase(t[c.id]) && Published(s.log, s'.log, Deleted, u, c.publish)
  {
    var t := s.store.table;
    GetByHeals(s.store, ttl, ById(c.id), c.byId, 0);
    GetByAnswers(s.store, ttl, ById(c.id), c.byId, 0);
    LookupAnswersExactly(s.store, ttl, ById(c.id), c.byId);
    var (s1, r) := GetBy(Cached(ttl), s.store, ById(c.id), c.byId);
    if c.id in t {
      RemoveAnswersExactly(s1, c.id, ttl, c.write);
      CopiesOwn(s1, ttl, c.id);
      AnnouncePublishes(s.log, Deleted, r.value, c.publish);
    }
  }

  /** The response to a deletion, over any sound cache and for any faults. */
  lemma DeleteUserReports(s: Sys, c: Call, ttl: Ttl)
    requires c.DeleteCall? && Sound(s.store, ttl)
    ensures var t, (s', r) := s.store.table, StepDelete(Cached(ttl), s, c);
            && r == (if !Readable(s.store, c.id, c.byId) then
                       Failed(if c.byId.dbFails then ErrDatabase else if c.id !in t then ErrNotFound else ErrFill)
                     else if c.write.oldFails then Failed(ErrDatabase)
                     else if c.id !in t then Failed(ErrNotFound)
                     else if c.write.execFails then Failed(ErrDatabase)
                     else if c.write.purge.failed then Failed(ErrInvalidate)
                     else Done)
            && s'.store.table == if r == Done || r == Failed(ErrInvalidate) then t - {c.id} else t
  {
    LookupAnswersExactly(s.store, ttl, ById(c.id), c.byId);
    RemoveAnswersExactly(GetBy(Cached(ttl), s.store, ById(c.id), c.byId).0, c.id, ttl, c.write);
  }

  // ---- Time --------------------------------------------------------------------------------------

  /** A ttl in which nothing happens empties any sound cache, and changes nothing else. */
  lemma WaitingForgets(s: Sys, c: Call, ttl: Ttl)
    requires c.ElapseCall? && Sound(s.store, ttl) && ttl <= c.dt
    ensures var s' := Step(Cached(ttl), s, c).0;
            && (forall k :: Peek(s'.store, k).None?)
            && s'.store.table == s.store.table && s'.log == s.log && s'.issued == s.issued
  {
  }
}
