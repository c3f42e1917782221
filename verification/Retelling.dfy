/** What the event log tells about each id, in runs where anything may fail: events carry whole records,
    so that every event repairs what was lost before it. */
module Retelling {
  import opened Domain
  import opened Database
  import opened Cache
  import opened Events
  import opened Service
  import opened EventHistory

  /** What the table shows at an id. */
  function Shown(t: Table, id: Uuid): Option<User> {
    if id in t then Some(Visible(t[id])) else None
  }

  /** What a consumer of the log believes of an id. */
  function Told(log: seq<Event>, id: Uuid): Option<User> {
    var t := Replay(log);
    if id in t then Some(t[id]) else None
  }

  /** The step announced something about the id. */
  predicate Announces(s: Sys, s': Sys, id: Uuid) {
    s'.log != s.log && s'.log != [] && s'.log[|s'.log| - 1].user.id == id
  }

  // ---- Copies keep their creation date -----------------------------------------------------------

  /** Only ids handed out are in the table or in the cache, and copies carry their row's creation date. */
  ghost predicate Dated(s: Store, issued: set<Uuid>) {
    && s.table.Keys <= issued
    && forall k | k in s.cache ::
         var u := s.cache[k].user;
         u.id in issued && (u.id in s.table ==> u.createdAt == s.table[u.id].createdAt)
  }

  ghost predicate Traceable(s: Sys, ttl: Ttl) {
    Sound(s.store, ttl) && Dated(s.store, s.issued)
  }

  lemma FillKeepsDated(s: Store, u: User, ttl: Ttl, o: Pipe, issued: set<Uuid>)
    requires Dated(s, issued) && u.id in s.table && s.table[u.id].createdAt == u.createdAt
    ensures Dated(Filled(s, u, ttl, o), issued)
  {
  }

  lemma GetByKeepsDated(s: Store, ttl: Ttl, k: Key, o: Read, issued: set<Uuid>)
    requires TableOk(s.table) && Dated(s, issued)
    ensures Dated(GetBy(Cached(ttl), s, k, o).0, issued)
  {
    var r := Select(s.table, k, o.dbFails);
    if r.Ok? {
      FillKeepsDated(Elapse(s, o.dt), r.value, ttl, o.fill, issued);
    }
  }

  lemma AddKeepsDated(s: Store, u: User, ttl: Ttl, o: Write, issued: set<Uuid>)
    requires Dated(s, issued) && u.id !in issued
    ensures Dated(Add(Cached(ttl), s, u, o).0, issued + {u.id})
  {
    var t := InsertRow(s.table, u, o.execFails);
    if t.Ok? {
      FillKeepsDated(s.(table := t.value), u, ttl, o.fill, issued + {u.id});
    }
  }

  lemma ChangeKeepsDated(s: Store, u: User, now: int, ttl: Ttl, o: Write, issued: set<Uuid>)
    requires TableOk(s.table) && Dated(s, issued)
    ensures Dated(Change(Cached(ttl), s, u, now, o).0, issued)
  {
    var t := UpdateRow(s.table, u, now, o.execFails);
    if t.Ok? && !o.oldFails {
      UpdateAdmitsExactly(s.table, u, now);
      FindIs(s.table, ById(u.id), u.id);
      FindIs(t.value, ById(u.id), u.id);
      var s1 := Purged(s.(table := t.value), s.table[u.id], o.purge);
      assert Dated(s1, issued);
      FillKeepsDated(s1, t.value[u.id], ttl, o.fill, issued);
    }
  }

  lemma RemoveKeepsDated(s: Store, id: Uuid, ttl: Ttl, o: Write, issued: set<Uuid>)
    requires Dated(s, issued)
    ensures Dated(Remove(Cached(ttl), s, id, o).0, issued)
  {
  }

  lemma CreateKeepsDated(s: Sys, c: Call, ttl: Ttl, h: nat)
    requires c.CreateCall? && c.id !in s.issued && Heals(s.store, ttl, h) && Dated(s.store, s.issued)
    ensures var s' := StepCreate(Cached(ttl), s, c).0; Dated(s'.store, s'.issued)
  {
    if c.hash.Some? {
      var u, b := NewUser(c), Cached(ttl);
      GetByHeals(s.store, ttl, ByEmail(u.email), c.byEmail, h);
      GetByKeepsDated(s.store, ttl, ByEmail(u.email), c.byEmail, s.issued);
      var s1 := GetBy(b, s.store, ByEmail(u.email), c.byEmail).0;
      GetByKeepsDated(s1, ttl, ByNickname(u.nickname), c.byNickname, s.issued);
      AddKeepsDated(GetBy(b, s1, ByNickname(u.nickname), c.byNickname).0, u, ttl, c.write, s.issued);
    }
  }

  lemma UpdateKeepsDated(s: Sys, c: Call, ttl: Ttl, h: nat)
    requires c.UpdateCall? && Heals(s.store, ttl, h) && Dated(s.store, s.issued)
    ensures var s' := StepUpdate(Cached(ttl), s, c).0; Dated(s'.store, s'.issued)
  {
    var b := Cached(ttl);
    GetByHeals(s.store, ttl, ById(c.id), c.byId, h);
    GetByKeepsDated(s.store, ttl, ById(c.id), c.byId, s.issued);
    var (s1, r) := GetBy(b, s.store, ById(c.id), c.byId);
    if r.Ok? {
      EmailGuardHeals(s1, r.value, c, ttl, h);
      GetByKeepsDated(s1, ttl, ByEmail(c.patch.email), c.byEmail, s.issued);
      var s2 := EmailGuard(b, s1, r.value, c).0;
      ChangeKeepsDated(s2, Patched(r.value, c.patch), c.now, ttl, c.write, s.issued);
    }
  }

  lemma DeleteKeepsDated(s: Sys, c: Call, ttl: Ttl, h: nat)
    requires c.DeleteCall? && Heals(s.store, ttl, h) && Dated(s.store, s.issued)
    ensures var s' := StepDelete(Cached(ttl), s, c).0; Dated(s'.store, s'.issued)
  {
    GetByKeepsDated(s.store, ttl, ById(c.id), c.byId, s.issued);
    RemoveKeepsDated(GetBy(Cached(ttl), s.store, ById(c.id), c.byId).0, c.id, ttl, c.write, s.issued);
  }

  lemma StepKeepsTraceable(s: Sys, c: Call, ttl: Ttl)
    requires Traceable(s, ttl) && (c.CreateCall? ==> c.id !in s.issued)
    ensures Traceable(Step(Cached(ttl), s, c).0, ttl)
  {
    var h := s.store.clock + ttl;
    assert Heals(s.store, ttl, h);
    StepHeals(s, c, ttl, h);
    match c
    case CreateCall(_, _, _, _, _, _, _, _, _) => CreateKeepsDated(s, c, ttl, h);
    case GetCall(_, _) => GetByKeepsDated(s.store, ttl, ById(c.id), c.byId, s.issued);
    case UpdateCall(_, _, _, _, _, _, _) => UpdateKeepsDated(s, c, ttl, h);
    case DeleteCall(_, _, _, _) => DeleteKeepsDated(s, c, ttl, h);
    case ElapseCall(_) =>
  }

  // ---- Every event is the truth about its id ------------------------------------------------------

  /** What one request does to the table and to the log, the same for all kinds of request. */
  ghost predicate Tells(s: Sys, s': Sys) {
    && (s'.log != s.log ==> exists e :: s'.log == s.log + [e] && Absorbed(s'.store.table, e))
    && forall id | !Announces(s, s', id) :: Told(s'.log, id) == Told(s.log, id)
  }

  /** The table is as the event says at its id. */
  ghost predicate Absorbed(t: Table, e: Event) {
    Shown(t, e.user.id) == if e.kind == Deleted then None else Some(Visible(e.user))
  }

  lemma {:induction false} EventTells(s: Sys, s': Sys, e: Event)
    requires s'.log == s.log || (s'.log == s.log + [e] && Absorbed(s'.store.table, e))
    ensures Tells(s, s')
  {
    ReplayAppended(s.log, e);
  }

  lemma StepTells(s: Sys, c: Call, ttl: Ttl)
    requires Traceable(s, ttl)
    ensures Tells(s, Step(Cached(ttl), s, c).0)
  {
    var h, s' := s.store.clock + ttl, Step(Cached(ttl), s, c).0;
    assert Heals(s.store, ttl, h);
    match c
    case CreateCall(_, _, _, _, _, _, _, _, _) =>
      if c.hash.Some? {
        CreateUserWrites(s, c, ttl, h);
        EventTells(s, s', UserEvent(Created, NewUser(c), c.publish));
      }
    case GetCall(_, _) =>
    case UpdateCall(_, _, _, _, _, _, _) =>
      var u := UpdateUserWrites(s, c, ttl, h);
      EventTells(s, s', UserEvent(Updated, u, c.publish));
    case DeleteCall(_, _, _, _) =>
      var u := DeleteUserWrites(s, c, ttl, h);
      EventTells(s, s', UserEvent(Deleted, u, c.publish));
    case ElapseCall(_) =>
  }

  /** What the table showed at an id right after the last event about it, or was told before the run. */
  ghost function LastTold(s: Sys, cs: seq<Call>, ttl: Ttl, id: Uuid, before: Option<User>): Option<User>
    decreases |cs|
  {
    if cs == [] then before else
    var s' := Step(Cached(ttl), s, cs[0]).0;
    LastTold(s', cs[1..], ttl, id, if Announces(s, s', id) then Shown(s'.store.table, id) else before)
  }

  /** Over every run, with stale copies, lost events and any other faults: at each id the log tells what
      the table showed right after the last event about that id. Hence it is right there exactly when
      nothing visible has changed since. */
  lemma {:induction false} LogTellsLastEvent(s: Sys, cs: seq<Call>, ttl: Ttl, id: Uuid)
    requires Traceable(s, ttl) && FreshIds(Cached(ttl), s, cs)
    ensures var s', last := Run(Cached(ttl), s, cs), LastTold(s, cs, ttl, id, Told(s.log, id));
            && Told(s'.log, id) == last
            && (Told(s'.log, id) == Shown(s'.store.table, id) <==> Shown(s'.store.table, id) == last)
    decreases |cs|
  {
    if cs != [] {
      var s' := Step(Cached(ttl), s, cs[0]).0;
      StepKeepsTraceable(s, cs[0], ttl);
      StepTells(s, cs[0], ttl);
      EventIsTruth(s, s', id);
      LogTellsLastEvent(s', cs[1..], ttl, id);
    }
  }

  lemma {:induction false} EventIsTruth(s: Sys, s': Sys, id: Uuid)
    requires Tells(s, s')
    ensures Told(s'.log, id) == if Announces(s, s', id) then Shown(s'.store.table, id) else Told(s.log, id)
  {
    if Announces(s, s', id) {
      var e :| s'.log == s.log + [e] && Absorbed(s'.store.table, e);
      ReplayAppended(s.log, e);
    }
  }
}
