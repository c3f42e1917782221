/** The event log against the history of the table. */
module EventHistory {
  import opened Domain
  import opened Database
  import opened Cache
  import opened Events
  import opened Service

  // ---- Lifecycle: created, then updated any number of times, then deleted ------------------------

  /** Per id, a created event comes first and a deleted event comes last. */
  ghost predicate Lifecycle(log: seq<Event>) {
    forall i, j | 0 <= i < j < |log| && log[i].user.id == log[j].user.id ::
      log[j].kind != Created && log[i].kind != Deleted
  }

  ghost predicate LogInv(s: Sys) {
    && s.store.table.Keys <= s.issued
    && (forall e | e in s.log :: e.user.id in s.issued)
    && (forall e | e in s.log && e.kind == Deleted :: e.user.id !in s.store.table)
    && Lifecycle(s.log)
  }

  ghost predicate LifecycleInv(s: Sys, ttl: Ttl, h: nat) {
    Heals(s.store, ttl, h) && LogInv(s)
  }

  lemma StepKeepsLifecycle(s: Sys, c: Call, ttl: Ttl, h: nat)
    requires LifecycleInv(s, ttl, h)
    requires c.CreateCall? ==> c.id !in s.issued
    ensures var (s', r) := Step(Cached(ttl), s, c);
            LifecycleInv(s', ttl, StepHorizon(r, s'.store, ttl, h))
  {
    StepHeals(s, c, ttl, h);
    var s' := Step(Cached(ttl), s, c).0;
    match c
    case CreateCall(_, _, _, _, _, _, _, _, _) =>
      if c.hash.Some? {
        CreateUserWrites(s, c, ttl, h);
        GrowLog(s, s', Created, NewUser(c), c.publish);
      }
    case GetCall(_, _) =>
      GetByHeals(s.store, ttl, ById(c.id), c.byId, h);
    case UpdateCall(_, _, _, _, _, _, _) =>
      var u := UpdateUserWrites(s, c, ttl, h);
      GrowLog(s, s', Updated, u, c.publish);
    case DeleteCall(_, _, _, _) =>
      var u := DeleteUserWrites(s, c, ttl, h);
      GrowLog(s, s', Deleted, u, c.publish);
    case ElapseCall(_) =>
  }

  /** The log and id part of the invariant, from what a request does to table and log. */
  lemma GrowLog(s: Sys, s': Sys, kind: EventKind, u: User, o: Publish)
    requires LogInv(s)
    requires s.issued <= s'.issued && s'.store.table.Keys <= s.store.table.Keys + {u.id}
    requires s'.store.table.Keys <= s'.issued
    requires u.id !in s.store.table && u.id in s'.store.table ==> u.id !in s.issued
    requires s'.log == s.log || s'.log == s.log + [UserEvent(kind, u, o)]
    requires s'.log != s.log ==>
               && u.id in s'.issued
               && (kind == Created ==> u.id !in s.issued)
               && (kind != Created ==> u.id in s.store.table)
               && (kind == Deleted ==> u.id !in s'.store.table)
    ensures LogInv(s')
  {
  }

  /** In every run, with stale entries and any faults, each id's events are a subsequence of
      created, updated, ..., updated, deleted. */
  lemma {:induction false} EventLifecycle(s: Sys, cs: seq<Call>, ttl: Ttl, h: nat)
    requires LifecycleInv(s, ttl, h) && FreshIds(Cached(ttl), s, cs)
    ensures Lifecycle(Run(Cached(ttl), s, cs).log)
    decreases |cs|
  {
    if cs != [] {
      var (s', r) := Step(Cached(ttl), s, cs[0]);
      StepKeepsLifecycle(s, cs[0], ttl, h);
      EventLifecycle(s', cs[1..], ttl, StepHorizon(r, s'.store, ttl, h));
    }
  }

  // ---- Replay ----------------------------------------------------------------------------------

  /** What an event tells about a row: everything but the password and updated_at. */
  function Visible(u: User): User {
    u.(password := "", updatedAt := 0)
  }

  function View(t: Table): Table {
    map id | id in t :: Visible(t[id])
  }

  function Absorb(t: Table, e: Event): Table {
    match e.kind
    case Created => t[e.user.id := Visible(e.user)]
    case Updated => t[e.user.id := Visible(e.user)]
    case Deleted => t - {e.user.id}
  }

  /** The table a consumer of the log ends up with. */
  function Replay(log: seq<Event>): Table {
    if log == [] then map[] else Absorb(Replay(log[..|log| - 1]), log[|log| - 1])
  }

  lemma {:induction false} ReplayAppended(log: seq<Event>, e: Event)
    ensures Replay(log + [e]) == Absorb(Replay(log), e)
  {
  }

  ghost predicate Replays(s: Sys) {
    Replay(s.log) == View(s.store.table)
  }

  /** After its commit the request meets no failure: fill, purge, re-read and publication succeed. */
  predicate Announced(c: Call) {
    match c
    case CreateCall(_, _, _, _, _, _, _, w, p) => !w.fill.failed && !p.fails
    case UpdateCall(_, _, _, _, _, w, p) =>
      !w.purge.failed && !w.rereadFails && !w.fill.failed && !p.fails
    case DeleteCall(_, _, w, p) => !w.purge.failed && !p.fails
    case _ => true
  }

  /** Upserting or removing a row shows in the view as absorbing the event that announces it. */
  lemma AbsorbAnnounces(t: Table, row: User, e: Event)
    requires row.id == e.user.id
    ensures e.kind != Deleted && Visible(row) == Visible(e.user) ==> View(t[row.id := row]) == Absorb(View(t), e)
    ensures e.kind == Deleted ==> View(t - {row.id}) == Absorb(View(t), e)
  {
  }

  lemma StepReplays(s: Sys, c: Call, ttl: Ttl)
    requires Heals(s.store, ttl, 0) && Replays(s)
    ensures var (s', r) := Step(Cached(ttl), s, c);
            && (s'.log != s.log ==> Replays(s'))
            && (Announced(c) && s'.log == s.log ==> s'.store.table == s.store.table)
            && (Announced(c) ==> r != Failed(ErrInvalidate))
  {
    var t := s.store.table;
    match c
    case CreateCall(_, _, _, _, _, _, _, _, _) =>
      if c.hash.Some? {
        CreateUserWrites(s, c, ttl, 0);
        var e := UserEvent(Created, NewUser(c), c.publish);
        ReplayAppended(s.log, e);
        AbsorbAnnounces(t, NewUser(c), e);
      }
    case GetCall(_, _) =>
      GetByHeals(s.store, ttl, ById(c.id), c.byId, 0);
    case UpdateCall(_, _, _, _, _, _, _) =>
      UpdateReplays(s, c, ttl);
    case DeleteCall(_, _, _, _) =>
      var u := DeleteUserWrites(s, c, ttl, 0);
      var e := UserEvent(Deleted, u, c.publish);
      ReplayAppended(s.log, e);
      AbsorbAnnounces(t, u, e);
    case ElapseCall(_) =>
  }

  lemma UpdateReplays(s: Sys, c: Call, ttl: Ttl)
    requires c.UpdateCall? && Heals(s.store, ttl, 0) && Replays(s)
    ensures var (s', r) := StepUpdate(Cached(ttl), s, c);
            && (s'.log != s.log ==> Replays(s'))
            && (Announced(c) && s'.log == s.log ==> s'.store.table == s.store.table)
            && (Announced(c) ==> r != Failed(ErrInvalidate))
  {
    var t := s.store.table;
    var u := UpdateUserWrites(s, c, ttl, 0);
    var e := UserEvent(Updated, u, c.publish);
    ReplayAppended(s.log, e);
    if u.id in t {
      AbsorbAnnounces(t, Rewritten(t[u.id], u, c.now), e);
    }
  }

  /** A coherent service keeps the log replayable exactly when it announces what it changes. */
  lemma StepReplaysExactly(s: Sys, c: Call, ttl: Ttl)
    requires Heals(s.store, ttl, 0) && Replays(s)
    ensures var s' := Step(Cached(ttl), s, c).0;
            Replays(s') <==> s'.log != s.log || View(s'.store.table) == View(s.store.table)
  {
    StepReplays(s, c, ttl);
  }

  /** Folding the log rebuilds the table, whatever happens to reads, hashes and statements. */
  lemma {:induction false} EventReplay(s: Sys, cs: seq<Call>, ttl: Ttl)
    requires Heals(s.store, ttl, 0) && Replays(s)
    requires forall c | c in cs :: Announced(c)
    ensures Replays(Run(Cached(ttl), s, cs))
    decreases |cs|
  {
    if cs != [] {
      assert Announced(cs[0]);
      StepHeals(s, cs[0], ttl, 0);
      StepReplays(s, cs[0], ttl);
      EventReplay(Step(Cached(ttl), s, cs[0]).0, cs[1..], ttl);
    }
  }
}
