/** The caching decorator over the users table, as functions of the store. */
module Cache {
  import opened Domain
  import opened Database

  type Ttl = n: nat | 0 < n witness 1

  /** A cached copy: the user as JSON gives it back, and the instant it expires. */
  datatype Entry = Entry(user: User, deadline: nat)

  datatype Store = Store(table: Table, cache: map<Key, Entry>, clock: nat)

  /** What becomes of one pipeline: it runs dt later; when it fails, some of its commands are lost. */
  datatype Pipe = Pipe(dt: nat, failed: bool, lost: set<Key>) {
    function Lost(): set<Key> {
      if failed then lost else {}
    }
  }

  /** Outcomes of the calls a lookup may make: GET, SELECT and the fill pipeline. */
  datatype Read = Read(dt: nat, getFails: bool, dbFails: bool, fill: Pipe)

  /** Outcomes of the calls a write may make, in order. */
  datatype Write = Write(oldFails: bool, execFails: bool, purge: Pipe, rereadFails: bool, fill: Pipe)

  /** The repository the service talks to: the table alone, or the table behind the cache. */
  datatype Backend = Bare | Cached(ttl: Ttl)

  // ---- Redis ---------------------------------------------------------------------------------

  function Elapse(s: Store, dt: nat): Store {
    s.(clock := s.clock + dt)
  }

  /** GET: an entry is served until its deadline. */
  function Peek(s: Store, k: Key): Option<User> {
    if k in s.cache && s.clock < s.cache[k].deadline then Some(s.cache[k].user) else None
  }

  /** The store after the three SETs of a fill. */
  function Filled(s: Store, u: User, ttl: Ttl, o: Pipe): Store {
    var now := s.clock + o.dt;
    Store(s.table, s.cache + map k | k in KeysOf(u) - o.Lost() :: Entry(Erase(u), now + ttl), now)
  }

  /** The store after the three DELs of an invalidation. */
  function Purged(s: Store, u: User, o: Pipe): Store {
    Store(s.table, s.cache - (KeysOf(u) - o.Lost()), s.clock + o.dt)
  }

  // ---- Repository operations -----------------------------------------------------------------

  ghost function GetBy(b: Backend, s: Store, k: Key, o: Read): (Store, Result<User>) {
    match b
    case Bare => (s, Select(s.table, k, o.dbFails))
    case Cached(ttl) =>
      var s1 := Elapse(s, o.dt);
      var hit := if o.getFails then None else Peek(s1, k);
      if hit.Some? then
        (s1, Ok(hit.value))
      else
        var r := Select(s1.table, k, o.dbFails);
        if r.Err? then (s1, r)
        else
          (Filled(s1, r.value, ttl, o.fill), if o.fill.failed then Err(ErrFill) else r)
  }

  ghost function Add(b: Backend, s: Store, u: User, o: Write): (Store, Result<()>) {
    var t := InsertRow(s.table, u, o.execFails);
    if t.Err? then (s, Err(t.error))
    else
      var s1 := s.(table := t.value);
      match b
      case Bare => (s1, Ok(()))
      case Cached(ttl) =>
        (Filled(s1, u, ttl, o.fill), if o.fill.failed then Err(ErrFill) else Ok(()))
  }

  ghost function Change(b: Backend, s: Store, u: User, now: int, o: Write): (Store, Result<()>) {
    match b
    case Bare =>
      var t := UpdateRow(s.table, u, now, o.execFails);
      if t.Err? then (s, Err(t.error)) else (s.(table := t.value), Ok(()))
    case Cached(ttl) =>
      var prev := Select(s.table, ById(u.id), o.oldFails);
      if prev.Err? then (s, Err(prev.error)) else
      var t := UpdateRow(s.table, u, now, o.execFails);
      if t.Err? then (s, Err(t.error)) else
      var s1 := Purged(s.(table := t.value), prev.value, o.purge);
      if o.purge.failed then (s1, Err(ErrInvalidate)) else
      var next := Select(s1.table, ById(u.id), o.rereadFails);
      if next.Err? then (s1, Err(next.error)) else
      (Filled(s1, next.value, ttl, o.fill), if o.fill.failed then Err(ErrFill) else Ok(()))
  }

  ghost function Remove(b: Backend, s: Store, id: Uuid, o: Write): (Store, Result<()>) {
    match b
    case Bare =>
      var t := DeleteRow(s.table, id, o.execFails);
      if t.Err? then (s, Err(t.error)) else (s.(table := t.value), Ok(()))
    case Cached(ttl) =>
      var prev := Select(s.table, ById(id), o.oldFails);
      if prev.Err? then (s, Err(prev.error)) else
      var t := DeleteRow(s.table, id, o.execFails);
      if t.Err? then (s, Err(t.error)) else
      (Purged(s.(table := t.value), prev.value, o.purge),
       if o.purge.failed then Err(ErrInvalidate) else Ok(()))
  }

  // ---- What the operations keep ----------------------------------------------------------------

  /** The user is the present row of its id, up to the password. */
  ghost predicate Current(t: Table, u: User) {
    u.id in t && Erase(t[u.id]) == u
  }

  /** Entries sit under a key of their own user, hold no password, and expire within a ttl. */
  ghost predicate Sound(s: Store, ttl: Ttl) {
    && TableOk(s.table)
    && forall k | k in s.cache ::
         && Owns(s.cache[k].user, k)
         && s.cache[k].user.password == ""
         && 0 < s.cache[k].deadline <= s.clock + ttl
  }

  /** Every entry matches the table or has expired by the horizon. With horizon 0 none may differ,
      since every deadline is positive. */
  ghost predicate Heals(s: Store, ttl: Ttl, horizon: nat) {
    && Sound(s, ttl)
    && forall k | k in s.cache ::
         Current(s.table, s.cache[k].user) || s.cache[k].deadline <= horizon
  }

  ghost predicate Coherent(s: Store) {
    forall k | k in s.cache :: Current(s.table, s.cache[k].user)
  }

  lemma FillHeals(s: Store, u: User, ttl: Ttl, o: Pipe, h: nat)
    requires Heals(s, ttl, h) && u.id in s.table && s.table[u.id] == u
    ensures Heals(Filled(s, u, ttl, o), ttl, h)
  {
  }

  /** A write to one id followed by a full purge of the old row's keys leaves nothing stale behind. */
  lemma PurgeHeals(s: Store, t: Table, id: Uuid, ttl: Ttl, o: Pipe, h: nat)
    requires Heals(s, ttl, h) && TableOk(t) && id in s.table
    requires forall i | i != id :: (i in t <==> i in s.table) && (i in t ==> t[i] == s.table[i])
    ensures o.failed || Heals(Purged(s.(table := t), s.table[id], o), ttl, h)
    ensures var s' := Purged(s.(table := t), s.table[id], o); Heals(s', ttl, s'.clock + ttl)
  {
    var prev := s.table[id];
    var s' := Purged(s.(table := t), prev, o);
    forall k | k in s'.cache && !o.failed
      ensures Current(t, s'.cache[k].user) || s'.cache[k].deadline <= h
    {
      var v := s.cache[k].user;
      assert v.id == id && Current(s.table, v) ==> Owns(prev, k);
    }
  }

  lemma GetByHeals(s: Store, ttl: Ttl, k: Key, o: Read, h: nat)
    requires Heals(s, ttl, h)
    ensures var (s', r) := GetBy(Cached(ttl), s, k, o);
            && Heals(s', ttl, h)
            && s'.table == s.table && s.clock <= s'.clock
            && (r.Ok? ==> Owns(r.value, k))
  {
    var s1 := Elapse(s, o.dt);
    assert Heals(s1, ttl, h);
    var r := Select(s.table, k, o.dbFails);
    if r.Ok? {
      FillHeals(s1, r.value, ttl, o.fill, h);
    }
  }

  /** The horizon after an operation: it moves only when an invalidation is reported as failed. */
  function Horizon<T>(r: Result<T>, s: Store, ttl: Ttl, h: nat): nat {
    if r == Err(ErrInvalidate) then s.clock + ttl else h
  }

  lemma CreateHeals(s: Store, u: User, ttl: Ttl, o: Write, h: nat)
    requires Heals(s, ttl, h)
    ensures var (s', r) := Add(Cached(ttl), s, u, o); Heals(s', ttl, Horizon(r, s', ttl, h))
  {
    var t := InsertRow(s.table, u, o.execFails);
    if t.Ok? {
      InsertAdmitsExactly(s.table, u);
      var s1 := s.(table := t.value);
      assert Heals(s1, ttl, h);
      FillHeals(s1, u, ttl, o.fill, h);
    }
  }

  lemma ChangeHeals(s: Store, u: User, now: int, ttl: Ttl, o: Write, h: nat)
    requires Heals(s, ttl, h)
    ensures var (s', r) := Change(Cached(ttl), s, u, now, o); Heals(s', ttl, Horizon(r, s', ttl, h))
  {
    var t := UpdateRow(s.table, u, now, o.execFails);
    if t.Ok? && !o.oldFails {
      FindIs(s.table, ById(u.id), u.id);
      UpdateAdmitsExactly(s.table, u, now);
      PurgeHeals(s, t.value, u.id, ttl, o.purge, h);
      if !o.purge.failed {
        var s1 := Purged(s.(table := t.value), s.table[u.id], o.purge);
        FindIs(t.value, ById(u.id), u.id);
        FillHeals(s1, t.value[u.id], ttl, o.fill, h);
      }
    }
  }

  lemma RemoveHeals(s: Store, id: Uuid, ttl: Ttl, o: Write, h: nat)
    requires Heals(s, ttl, h)
    ensures var (s', r) := Remove(Cached(ttl), s, id, o); Heals(s', ttl, Horizon(r, s', ttl, h))
  {
    var t := DeleteRow(s.table, id, o.execFails);
    if t.Ok? && !o.oldFails {
      FindIs(s.table, ById(id), id);
      DeleteKeepsTableOk(s.table, id);
      PurgeHeals(s, t.value, id, ttl, o.purge, h);
    }
  }

  // ---- What the operations do to the table -------------------------------------------------------

  /** A lookup answers with an owner of the key; from a coherent cache it is the row itself. */
  lemma GetByAnswers(s: Store, ttl: Ttl, k: Key, o: Read, h: nat)
    requires Heals(s, ttl, h)
    ensures var (s', r) := GetBy(Cached(ttl), s, k, o);
            && s'.table == s.table
            && (r.Ok? ==> Owns(r.value, k))
            && (r.Ok? && h == 0 ==> r.value.id in s.table && Erase(r.value) == Erase(s.table[r.value.id]))
  {
  }

  lemma CreateWrites(s: Store, u: User, ttl: Ttl, o: Write)
    ensures var (s', r) := Add(Cached(ttl), s, u, o);
            && (s'.table == s.table || (u.id !in s.table && s'.table == s.table[u.id := u]))
            && (r.Ok? ==> s'.table == s.table[u.id := u])
            && (!o.fill.failed && r.Err? ==> s' == s)
  {
  }

  lemma ChangeWrites(s: Store, u: User, now: int, ttl: Ttl, o: Write)
    requires TableOk(s.table)
    ensures var (s', r) := Change(Cached(ttl), s, u, now, o);
            && (s'.table == s.table ||
                (u.id in s.table && s'.table == s.table[u.id := Rewritten(s.table[u.id], u, now)]))
            && (r.Ok? ==> u.id in s.table && s'.table == s.table[u.id := Rewritten(s.table[u.id], u, now)])
            && (!o.purge.failed && !o.rereadFails && !o.fill.failed && r.Err? ==> s'.table == s.table)
  {
    var t := UpdateRow(s.table, u, now, o.execFails);
    if t.Ok? && !o.oldFails && !o.purge.failed {
      FindIs(s.table, ById(u.id), u.id);
      UpdateAdmitsExactly(s.table, u, now);
      FindIs(t.value, ById(u.id), u.id);
    }
  }

  lemma RemoveWrites(s: Store, id: Uuid, ttl: Ttl, o: Write)
    ensures var (s', r) := Remove(Cached(ttl), s, id, o);
            && (s'.table == s.table || (id in s.table && s'.table == s.table - {id}))
            && (r.Ok? ==> id in s.table && s'.table == s.table - {id})
            && (!o.purge.failed && r.Err? ==> s'.table == s.table)
  {
  }

  // ---- Redis and the decorator as objects ---------------------------------------------------------

  /** A queued pipeline command. SET stores what JSON keeps of the user. */
  datatype Command = Set(key: Key, user: User, ttl: Ttl) | Del(key: Key)

  function Commanded(m: map<Key, Entry>, c: Command, lost: set<Key>, now: nat): map<Key, Entry> {
    if c.key in lost then m
    else match c
      case Set(k, u, ttl) => m[k := Entry(Erase(u), now + ttl)]
      case Del(k) => m - {k}
  }

  /** The commands of a pipeline in order, those on lost keys left out. */
  function AllCommanded(m: map<Key, Entry>, cs: seq<Command>, lost: set<Key>, now: nat): map<Key, Entry> {
    if cs == [] then m
    else Commanded(AllCommanded(m, cs[..|cs| - 1], lost, now), cs[|cs| - 1], lost, now)
  }

  lemma {:induction false} ThreeCommands(m: map<Key, Entry>, a: Command, b: Command, c: Command,
                                         lost: set<Key>, now: nat)
    ensures AllCommanded(m, [a, b, c], lost, now)
            == Commanded(Commanded(Commanded(m, a, lost, now), b, lost, now), c, lost, now)
  {
    assert [a, b, c][..2] == [a, b] && [a, b][..1] == [a] && [a][..0] == [];
    assert AllCommanded(m, [a], lost, now) == Commanded(m, a, lost, now);
    assert AllCommanded(m, [a, b], lost, now) == Commanded(Commanded(m, a, lost, now), b, lost, now);
  }

  /** One more SET, or one more DEL, on a growing set of keys. */
  lemma CommandGrows(m: map<Key, Entry>, ks: set<Key>, k: Key, u: User, ttl: Ttl, lost: set<Key>, now: nat)
    ensures var e := Entry(Erase(u), now + ttl);
            Commanded(m + map x | x in ks - lost :: e, Set(k, u, ttl), lost, now)
            == m + map x | x in ks + {k} - lost :: e
    ensures Commanded(m - (ks - lost), Del(k), lost, now) == m - (ks + {k} - lost)
  {
  }

  function SetCommands(u: User, ttl: Ttl): seq<Command> {
    [Set(ById(u.id), u, ttl), Set(ByEmail(u.email), u, ttl), Set(ByNickname(u.nickname), u, ttl)]
  }

  function DelCommands(u: User): seq<Command> {
    [Del(ById(u.id)), Del(ByEmail(u.email)), Del(ByNickname(u.nickname))]
  }

  /** The pipelines of a fill and of a purge, as updates of the whole cache. */
  lemma FillCommands(s: Store, u: User, ttl: Ttl, o: Pipe)
    ensures AllCommanded(s.cache, SetCommands(u, ttl), o.Lost(), s.clock + o.dt) == Filled(s, u, ttl, o).cache
  {
    var (i, e, n) := (ById(u.id), ByEmail(u.email), ByNickname(u.nickname));
    var (m, lost, now) := (s.cache, o.Lost(), s.clock + o.dt);
    ThreeCommands(m, Set(i, u, ttl), Set(e, u, ttl), Set(n, u, ttl), lost, now);
    var entry := Entry(Erase(u), now + ttl);
    assert Commanded(m, Set(i, u, ttl), lost, now) == m + map x | x in {i} - lost :: entry;
    CommandGrows(m, {i}, e, u, ttl, lost, now);
    CommandGrows(m, {i} + {e}, n, u, ttl, lost, now);
    assert {i} + {e} + {n} == KeysOf(u);
  }

  lemma PurgeCommands(s: Store, u: User, ttl: Ttl, o: Pipe)
    ensures AllCommanded(s.cache, DelCommands(u), o.Lost(), s.clock + o.dt) == Purged(s, u, o).cache
  {
    var (i, e, n) := (ById(u.id), ByEmail(u.email), ByNickname(u.nickname));
    var (m, lost, now) := (s.cache, o.Lost(), s.clock + o.dt);
    ThreeCommands(m, Del(i), Del(e), Del(n), lost, now);
    assert Commanded(m, Del(i), lost, now) == m - ({i} - lost);
    CommandGrows(m, {i}, e, u, ttl, lost, now);
    CommandGrows(m, {i} + {e}, n, u, ttl, lost, now);
    assert {i} + {e} + {n} == KeysOf(u);
  }

  class Redis {
    var entries: map<Key, Entry>
    var clock: nat

    constructor ()
      ensures entries == map[] && clock == 0
    {
      entries, clock := map[], 0;
    }

    method Get(k: Key, dt: nat, fails: bool) returns (r: Option<User>)
      modifies this
      ensures entries == old(entries) && clock == old(clock) + dt
      ensures r == if !fails && k in entries && clock < entries[k].deadline then Some(entries[k].user) else None
    {
      clock := clock + dt;
      if fails || k !in entries || entries[k].deadline <= clock {
        return None;
      }
      return Some(entries[k].user);
    }

    method Exec(commands: seq<Command>, o: Pipe) returns (ok: bool)
      modifies this
      ensures ok == !o.failed && clock == old(clock) + o.dt
      ensures entries == AllCommanded(old(entries), commands, o.Lost(), clock)
    {
      clock := clock + o.dt;
      for i := 0 to |commands|
        invariant clock == old(clock) + o.dt
        invariant entries == AllCommanded(old(entries), commands[..i], o.Lost(), clock)
      {
        assert commands[..i + 1][..i] == commands[..i];
        if commands[i].key !in o.Lost() {
          match commands[i]
          case Set(k, u, ttl) => entries := entries[k := Entry(Erase(u), clock + ttl)];
          case Del(k) => entries := entries - {k};
        }
      }
      assert commands[..|commands|] == commands;
      ok := !o.failed;
    }
  }

  class CacheDecorator {
    const repo: UserRepository
    const redis: Redis
    const ttl: Ttl

    constructor (repo: UserRepository, redis: Redis, ttl: Ttl)
      ensures this.repo == repo && this.redis == redis && this.ttl == ttl
    {
      this.repo, this.redis, this.ttl := repo, redis, ttl;
    }

    ghost function View(): Store
      reads repo, redis
    {
      Store(repo.table, redis.entries, redis.clock)
    }

    method CacheUser(u: User, o: Pipe) returns (ok: bool)
      modifies redis
      ensures ok == !o.failed && View() == Filled(old(View()), u, ttl, o)
    {
      var pipe: seq<Command> := [];
      pipe := pipe + [Set(ById(u.id), u, ttl)];
      pipe := pipe + [Set(ByEmail(u.email), u, ttl)];
      pipe := pipe + [Set(ByNickname(u.nickname), u, ttl)];
      assert pipe == SetCommands(u, ttl);
      ok := redis.Exec(pipe, o);
      FillCommands(old(View()), u, ttl, o);
    }

    method InvalidateUserCache(u: User, o: Pipe) returns (ok: bool)
      modifies redis
      ensures ok == !o.failed && View() == Purged(old(View()), u, o)
    {
      var pipe: seq<Command> := [];
      pipe := pipe + [Del(ById(u.id))];
      pipe := pipe + [Del(ByEmail(u.email))];
      pipe := pipe + [Del(ByNickname(u.nickname))];
      assert pipe == DelCommands(u);
      ok := redis.Exec(pipe, o);
      PurgeCommands(old(View()), u, ttl, o);
    }

    method Create(u: User, o: Write) returns (r: Result<()>)
      requires TableOk(repo.table)
      modifies repo, redis
      ensures TableOk(repo.table)
      ensures (View(), r) == Add(Cached(ttl), old(View()), u, o)
    {
      r := repo.Create(u, o.execFails);
      if r.Err? {
        return;
      }
      var ok := CacheUser(u, o.fill);
      if !ok {
        return Err(ErrFill);
      }
    }

    method GetByID(id: Uuid, o: Read) returns (r: Result<User>)
      requires TableOk(repo.table)
      modifies redis
      ensures (View(), r) == GetBy(Cached(ttl), old(View()), ById(id), o)
    {
      var hit := redis.Get(ById(id), o.dt, o.getFails);
      if hit.Some? {
        return Ok(hit.value);
      }
      r := repo.GetByID(id, o.dbFails);
      if r.Ok? {
        var ok := CacheUser(r.value, o.fill);
        if !ok {
          return Err(ErrFill);
        }
      }
    }

    method GetByEmail(email: string, o: Read) returns (r: Result<User>)
      requires TableOk(repo.table)
      modifies redis
      ensures (View(), r) == GetBy(Cached(ttl), old(View()), ByEmail(email), o)
    {
      var hit := redis.Get(ByEmail(email), o.dt, o.getFails);
      if hit.Some? {
        return Ok(hit.value);
      }
      r := repo.GetByEmail(email, o.dbFails);
      if r.Ok? {
        var ok := CacheUser(r.value, o.fill);
        if !ok {
          return Err(ErrFill);
        }
      }
    }

    method GetByNickname(nickname: string, o: Read) returns (r: Result<User>)
      requires TableOk(repo.table)
      modifies redis
      ensures (View(), r) == GetBy(Cached(ttl), old(View()), ByNickname(nickname), o)
    {
      var hit := redis.Get(ByNickname(nickname), o.dt, o.getFails);
      if hit.Some? {
        return Ok(hit.value);
      }
      r := repo.GetByNickname(nickname, o.dbFails);
      if r.Ok? {
        var ok := CacheUser(r.value, o.fill);
        if !ok {
          return Err(ErrFill);
        }
      }
    }

    method Update(u: User, now: int, o: Write) returns (r: Result<()>)
      requires TableOk(repo.table)
      modifies repo, redis
      ensures TableOk(repo.table)
      ensures (View(), r) == Change(Cached(ttl), old(View()), u, now, o)
    {
      var prev := repo.GetByID(u.id, o.oldFails);
      if prev.Err? {
        return Err(prev.error);
      }
      r := repo.Update(u, now, o.execFails);
      if r.Err? {
        return;
      }
      var ok := InvalidateUserCache(prev.value, o.purge);
      if !ok {
        return Err(ErrInvalidate);
      }
      var next := repo.GetByID(u.id, o.rereadFails);
      if next.Err? {
        return Err(next.error);
      }
      ok := CacheUser(next.value, o.fill);
      if !ok {
        return Err(ErrFill);
      }
    }

    method Delete(id: Uuid, o: Write) returns (r: Result<()>)
      requires TableOk(repo.table)
      modifies repo, redis
      ensures TableOk(repo.table)
      ensures (View(), r) == Remove(Cached(ttl), old(View()), id, o)
    {
      var prev := repo.GetByID(id, o.oldFails);
      if prev.Err? {
        return Err(prev.error);
      }
      r := repo.Delete(id, o.execFails);
      if r.Err? {
        return;
      }
      var ok := InvalidateUserCache(prev.value, o.purge);
      if !ok {
        return Err(ErrInvalidate);
      }
    }
  }
}
