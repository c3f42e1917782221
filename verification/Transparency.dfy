/** The service over the cache and the service over the bare table are bisimilar, up to passwords. */
module Transparency {
  import opened Domain
  import opened Database
  import opened Cache
  import opened Service

  ghost predicate SameRows(t: Table, t': Table) {
    t.Keys == t'.Keys && forall id | id in t :: Erase(t[id]) == Erase(t'[id])
  }

  /** The bisimulation: a coherent cached system beside a bare one with the same rows and events. */
  ghost predicate Mirrors(s: Sys, bare: Sys, ttl: Ttl) {
    && Heals(s.store, ttl, 0)
    && TableOk(bare.store.table)
    && SameRows(s.store.table, bare.store.table)
    && s.log == bare.log
  }

  function EraseResult(r: Result<User>): Result<User> {
    if r.Ok? then Ok(Erase(r.value)) else r
  }

  function EraseResponse(r: Response): Response {
    if r.Returned? then Returned(Erase(r.user)) else r
  }

  predicate SmoothRead(o: Read) {
    !o.dbFails && !o.fill.failed
  }

  predicate SmoothWrite(o: Write) {
    !o.oldFails && !o.purge.failed && !o.rereadFails && !o.fill.failed
  }

  /** Pipelines and SELECTs work. GETs, writing statements, hashing and publication may fail. */
  predicate Smooth(c: Call) {
    match c
    case CreateCall(_, _, _, _, _, byEmail, byNickname, write, _) =>
      SmoothRead(byEmail) && SmoothRead(byNickname) && SmoothWrite(write)
    case GetCall(_, byId) => SmoothRead(byId)
    case UpdateCall(_, _, _, byId, byEmail, write, _) =>
      SmoothRead(byId) && SmoothRead(byEmail) && SmoothWrite(write)
    case DeleteCall(_, byId, write, _) => SmoothRead(byId) && SmoothWrite(write)
    case ElapseCall(_) => true
  }

  /** Tables with the same rows answer every key alike. */
  lemma SelectAgrees(t: Table, t': Table, k: Key)
    requires TableOk(t) && TableOk(t') && SameRows(t, t')
    ensures EraseResult(Select(t, k, false)) == EraseResult(Select(t', k, false))
  {
    if id :| id in t && Owns(t[id], k) {
      assert Owns(Erase(t'[id]), k);
      FindIs(t, k, id);
      FindIs(t', k, id);
    } else {
      assert forall id | id in t' :: Owns(t'[id], k) <==> Owns(Erase(t[id]), k);
    }
  }

  lemma GetByAgrees(s: Store, bare: Store, ttl: Ttl, k: Key, o: Read)
    requires Heals(s, ttl, 0) && TableOk(bare.table) && SameRows(s.table, bare.table) && SmoothRead(o)
    ensures var (s', r) := GetBy(Cached(ttl), s, k, o);
            var (bare', r') := GetBy(Bare, bare, k, o);
            && Heals(s', ttl, 0) && s'.table == s.table && bare' == bare
            && EraseResult(r) == EraseResult(r')
  {
    GetByHeals(s, ttl, k, o, 0);
    SelectAgrees(s.table, bare.table, k);
    if !o.getFails && Peek(Elapse(s, o.dt), k).Some? {
      FindIs(s.table, k, s.cache[k].user.id);
    }
  }

  lemma ClashesAgree(t: Table, t': Table, u: User, u': User)
    requires SameRows(t, t') && Erase(u) == Erase(u')
    ensures NicknameClash(t, u) <==> NicknameClash(t', u')
    ensures EmailClash(t, u) <==> EmailClash(t', u')
    ensures u.id == u'.id
  {
  }

  /** Two statements agree: both are refused alike, or both leave the same rows. */
  ghost predicate SameOutcome(r: Result<Table>, r': Result<Table>) {
    if r.Ok? then r'.Ok? && SameRows(r.value, r'.value) && TableOk(r'.value) else r == r'
  }

  lemma InsertsAgree(t: Table, t': Table, u: User, fails: bool)
    requires TableOk(t') && SameRows(t, t')
    ensures SameOutcome(InsertRow(t, u, fails), InsertRow(t', u, fails))
  {
    ClashesAgree(t, t', u, u);
    InsertAdmitsExactly(t', u);
  }

  lemma UpdatesAgree(t: Table, t': Table, u: User, u': User, now: int, fails: bool)
    requires TableOk(t') && SameRows(t, t') && Erase(u) == Erase(u')
    ensures SameOutcome(UpdateRow(t, u, now, fails), UpdateRow(t', u', now, fails))
  {
    ClashesAgree(t, t', u, u');
    UpdateAdmitsExactly(t', u', now);
    if u.id in t {
      var row, row' := Rewritten(t[u.id], u, now), Rewritten(t'[u.id], u', now);
      assert Erase(row) == Erase(u).(id := Erase(t[u.id]).id, createdAt := Erase(t[u.id]).createdAt, updatedAt := now);
      assert Erase(row')
             == Erase(u').(id := Erase(t'[u.id]).id, createdAt := Erase(t'[u.id]).createdAt, updatedAt := now);
    }
  }

  lemma DeletesAgree(t: Table, t': Table, id: Uuid, fails: bool)
    requires TableOk(t') && SameRows(t, t')
    ensures SameOutcome(DeleteRow(t, id, fails), DeleteRow(t', id, fails))
  {
  }

  lemma CreateAgrees(s: Store, bare: Store, ttl: Ttl, u: User, o: Write)
    requires Heals(s, ttl, 0) && TableOk(bare.table) && SameRows(s.table, bare.table) && SmoothWrite(o)
    ensures var (s', r) := Add(Cached(ttl), s, u, o);
            var (bare', r') := Add(Bare, bare, u, o);
            && Heals(s', ttl, 0) && TableOk(bare'.table) && SameRows(s'.table, bare'.table) && r == r'
  {
    CreateHeals(s, u, ttl, o, 0);
    InsertsAgree(s.table, bare.table, u, o.execFails);
  }

  lemma ChangeAgrees(s: Store, bare: Store, ttl: Ttl, u: User, u': User, now: int, o: Write)
    requires Heals(s, ttl, 0) && TableOk(bare.table) && SameRows(s.table, bare.table) && SmoothWrite(o)
    requires Erase(u) == Erase(u') && u.id in s.table
    ensures var (s', r) := Change(Cached(ttl), s, u, now, o);
            var (bare', r') := Change(Bare, bare, u', now, o);
            && Heals(s', ttl, 0) && TableOk(bare'.table) && SameRows(s'.table, bare'.table) && r == r'
  {
    ChangeHeals(s, u, now, ttl, o, 0);
    UpdatesAgree(s.table, bare.table, u, u', now, o.execFails);
    var t := UpdateRow(s.table, u, now, o.execFails);
    FindIs(s.table, ById(u.id), u.id);
    UpdateAdmitsExactly(s.table, u, now);
    if t.Ok? {
      FindIs(t.value, ById(u.id), u.id);
    }
  }

  lemma RemoveAgrees(s: Store, bare: Store, ttl: Ttl, u: User, o: Write)
    requires Heals(s, ttl, 0) && TableOk(bare.table) && SameRows(s.table, bare.table) && SmoothWrite(o)
    requires u.id in s.table
    ensures var (s', r) := Remove(Cached(ttl), s, u.id, o);
            var (bare', r') := Remove(Bare, bare, u.id, o);
            && Heals(s', ttl, 0) && TableOk(bare'.table) && SameRows(s'.table, bare'.table) && r == r'
  {
    RemoveHeals(s, u.id, ttl, o, 0);
    DeletesAgree(s.table, bare.table, u.id, o.execFails);
    FindIs(s.table, ById(u.id), u.id);
  }

  lemma CreateUserAgrees(s: Sys, bare: Sys, ttl: Ttl, c: Call)
    requires c.CreateCall? && Mirrors(s, bare, ttl) && Smooth(c)
    ensures var ((s', r), (bare', r')) := (StepCreate(Cached(ttl), s, c), StepCreate(Bare, bare, c));
            Mirrors(s', bare', ttl) && EraseResponse(r) == EraseResponse(r')
  {
    if c.hash.Some? {
      var u := NewUser(c);
      GetByAgrees(s.store, bare.store, ttl, ByEmail(u.email), c.byEmail);
      var s1 := GetBy(Cached(ttl), s.store, ByEmail(u.email), c.byEmail).0;
      GetByAgrees(s1, bare.store, ttl, ByNickname(u.nickname), c.byNickname);
      var s2 := GetBy(Cached(ttl), s1, ByNickname(u.nickname), c.byNickname).0;
      CreateAgrees(s2, bare.store, ttl, u, c.write);
    }
  }

  lemma SaveUserAgrees(s: Sys, bare: Sys, ttl: Ttl, u: User, u': User, c: Call)
    requires c.UpdateCall? && Mirrors(s, bare, ttl) && Smooth(c) && Erase(u) == Erase(u')
    requires u.id in s.store.table
    ensures var ((s', r), (bare', r')) := (SaveUser(Cached(ttl), s, u, c), SaveUser(Bare, bare, u', c));
            Mirrors(s', bare', ttl) && EraseResponse(r) == EraseResponse(r')
  {
    ChangeAgrees(s.store, bare.store, ttl, u, u', c.now, c.write);
  }

  lemma EmailGuardAgrees(s: Store, bare: Store, ttl: Ttl, u: User, u': User, c: Call)
    requires c.UpdateCall? && Smooth(c) && Erase(u) == Erase(u')
    requires Heals(s, ttl, 0) && TableOk(bare.table) && SameRows(s.table, bare.table)
    ensures var ((s', r), (bare', r')) := (EmailGuard(Cached(ttl), s, u, c), EmailGuard(Bare, bare, u', c));
            Heals(s', ttl, 0) && s'.table == s.table && bare' == bare && r == r'
  {
    GetByAgrees(s, bare, ttl, ByEmail(c.patch.email), c.byEmail);
  }

  lemma UpdateUserAgrees(s: Sys, bare: Sys, ttl: Ttl, c: Call)
    requires c.UpdateCall? && Mirrors(s, bare, ttl) && Smooth(c)
    ensures var ((s', r), (bare', r')) := (StepUpdate(Cached(ttl), s, c), StepUpdate(Bare, bare, c));
            Mirrors(s', bare', ttl) && EraseResponse(r) == EraseResponse(r')
  {
    GetByAgrees(s.store, bare.store, ttl, ById(c.id), c.byId);
    var (s1, r) := GetBy(Cached(ttl), s.store, ById(c.id), c.byId);
    var r' := GetBy(Bare, bare.store, ById(c.id), c.byId).1;
    GetByAnswers(s.store, ttl, ById(c.id), c.byId, 0);
    if r.Ok? {
      EmailGuardAgrees(s1, bare.store, ttl, r.value, r'.value, c);
      var s2 := EmailGuard(Cached(ttl), s1, r.value, c).0;
      SaveUserAgrees(s.(store := s2), bare, ttl, Patched(r.value, c.patch), Patched(r'.value, c.patch), c);
    }
  }

  lemma DeleteUserAgrees(s: Sys, bare: Sys, ttl: Ttl, c: Call)
    requires c.DeleteCall? && Mirrors(s, bare, ttl) && Smooth(c)
    ensures var ((s', r), (bare', r')) := (StepDelete(Cached(ttl), s, c), StepDelete(Bare, bare, c));
            Mirrors(s', bare', ttl) && EraseResponse(r) == EraseResponse(r')
  {
    GetByAgrees(s.store, bare.store, ttl, ById(c.id), c.byId);
    var (s1, r) := GetBy(Cached(ttl), s.store, ById(c.id), c.byId);
    GetByAnswers(s.store, ttl, ById(c.id), c.byId, 0);
    if r.Ok? {
      RemoveAgrees(s1, bare.store, ttl, r.value, c.write);
    }
  }

  lemma StepAgrees(s: Sys, bare: Sys, ttl: Ttl, c: Call)
    requires Mirrors(s, bare, ttl) && Smooth(c)
    ensures var ((s', r), (bare', r')) := (Step(Cached(ttl), s, c), Step(Bare, bare, c));
            Mirrors(s', bare', ttl) && EraseResponse(r) == EraseResponse(r')
  {
    match c
    case CreateCall(_, _, _, _, _, _, _, _, _) => CreateUserAgrees(s, bare, ttl, c);
    case GetCall(_, _) => GetByAgrees(s.store, bare.store, ttl, ById(c.id), c.byId);
    case UpdateCall(_, _, _, _, _, _, _) => UpdateUserAgrees(s, bare, ttl, c);
    case DeleteCall(_, _, _, _) => DeleteUserAgrees(s, bare, ttl, c);
    case ElapseCall(_) =>
  }

  /** The cache is transparent: the same responses in the same order, the same rows, the same events,
      whenever entries expire. */
  lemma {:induction false} CacheTransparency(s: Sys, bare: Sys, ttl: Ttl, cs: seq<Call>)
    requires Mirrors(s, bare, ttl)
    requires forall c | c in cs :: Smooth(c)
    ensures Mirrors(Run(Cached(ttl), s, cs), Run(Bare, bare, cs), ttl)
    ensures forall i | 0 <= i < |cs| ::
              EraseResponse(Responses(Cached(ttl), s, cs)[i]) == EraseResponse(Responses(Bare, bare, cs)[i])
    decreases |cs|
  {
    if cs != [] {
      var (s', r) := Step(Cached(ttl), s, cs[0]);
      var (bare', r') := Step(Bare, bare, cs[0]);
      assert Smooth(cs[0]);
      StepAgrees(s, bare, ttl, cs[0]);
      CacheTransparency(s', bare', ttl, cs[1..]);
      assert Responses(Cached(ttl), s, cs) == [r] + Responses(Cached(ttl), s', cs[1..]);
      assert Responses(Bare, bare, cs) == [r'] + Responses(Bare, bare', cs[1..]);
    }
  }
}
