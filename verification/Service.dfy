/** The user service over a repository and an event log, as one step per request. */
module Service {
  import opened Domain
  import opened Database
  import opened Cache
  import opened Events

  /** The whole system: repository store, event log, and the ids handed out so far. */
  datatype Sys = Sys(store: Store, log: seq<Event>, issued: set<Uuid>)

  /** A request together with the outcome of everything it meets outside: clocks, the bcrypt hash,
      the fresh UUID, Redis, the database and the broker. */
  datatype Call =
    | CreateCall(input: User, id: Uuid, hash: Option<string>, createdAt: int, updatedAt: int,
                 byEmail: Read, byNickname: Read, write: Write, publish: Publish)
    | GetCall(id: Uuid, byId: Read)
    | UpdateCall(id: Uuid, patch: User, now: int,
                 byId: Read, byEmail: Read, write: Write, publish: Publish)
    | DeleteCall(id: Uuid, byId: Read, write: Write, publish: Publish)
    | ElapseCall(dt: nat)

  datatype Response = Returned(user: User) | Done | Failed(error: Error)

  /** The user that CreateUser builds from the request. */
  function NewUser(c: Call): User
    requires c.CreateCall? && c.hash.Some?
  {
    c.input.(id := c.id, password := c.hash.value, createdAt := c.createdAt, updatedAt := c.updatedAt)
  }

  /** A non-empty field of the patch replaces the user's. */
  function Patched(u: User, p: User): User {
    u.(firstName := if p.firstName != "" then p.firstName else u.firstName,
       lastName := if p.lastName != "" then p.lastName else u.lastName,
       nickname := if p.nickname != "" then p.nickname else u.nickname,
       country := if p.country != "" then p.country else u.country,
       email := if p.email != "" then p.email else u.email)
  }

  ghost function StepCreate(b: Backend, s: Sys, c: Call): (Sys, Response)
    requires c.CreateCall?
  {
    if c.hash.None? then (s, Failed(ErrHash)) else
    var u := NewUser(c);
    var issued := s.issued + {c.id};
    var (s1, byEmail) := GetBy(b, s.store, ByEmail(u.email), c.byEmail);
    if byEmail.Ok? then (Sys(s1, s.log, issued), Failed(ErrEmailTaken)) else
    var (s2, byNickname) := GetBy(b, s1, ByNickname(u.nickname), c.byNickname);
    if byNickname.Ok? then (Sys(s2, s.log, issued), Failed(ErrNicknameTaken)) else
    var (s3, saved) := Add(b, s2, u, c.write);
    if saved.Err? then (Sys(s3, s.log, issued), Failed(saved.error)) else
    (Sys(s3, Announce(s.log, Created, u, c.publish), issued), Returned(u))
  }

  ghost function StepGet(b: Backend, s: Sys, c: Call): (Sys, Response)
    requires c.GetCall?
  {
    var (s1, r) := GetBy(b, s.store, ById(c.id), c.byId);
    (s.(store := s1), if r.Ok? then Returned(r.value) else Failed(r.error))
  }

  /** The lookup that guards a change of email, made only when the email changes. */
  ghost function EmailGuard(b: Backend, s: Store, u: User, c: Call): (Store, bool)
    requires c.UpdateCall?
  {
    if c.patch.email != "" && u.email != c.patch.email then
      var (s1, r) := GetBy(b, s, ByEmail(c.patch.email), c.byEmail);
      (s1, r.Ok? && r.value.id != c.id)
    else
      (s, false)
  }

  ghost function StepUpdate(b: Backend, s: Sys, c: Call): (Sys, Response)
    requires c.UpdateCall?
  {
    var (s1, r) := GetBy(b, s.store, ById(c.id), c.byId);
    if r.Err? then (s.(store := s1), Failed(r.error)) else
    var u := Patched(r.value, c.patch);
    var (s2, taken) := EmailGuard(b, s1, r.value, c);
    if taken then (s.(store := s2), Failed(ErrEmailTaken)) else SaveUser(b, s.(store := s2), u, c)
  }

  /** The end of UpdateUser: write the row, then announce it. */
  ghost function SaveUser(b: Backend, s: Sys, u: User, c: Call): (Sys, Response)
    requires c.UpdateCall?
  {
    var (s1, saved) := Change(b, s.store, u, c.now, c.write);
    if saved.Err? then (s.(store := s1), Failed(saved.error)) else
    (s.(store := s1, log := Announce(s.log, Updated, u, c.publish)), Returned(u))
  }

  ghost function StepDelete(b: Backend, s: Sys, c: Call): (Sys, Response)
    requires c.DeleteCall?
  {
    var (s1, r) := GetBy(b, s.store, ById(c.id), c.byId);
    if r.Err? then (s.(store := s1), Failed(r.error)) else
    var (s2, gone) := Remove(b, s1, c.id, c.write);
    if gone.Err? then (s.(store := s2), Failed(gone.error)) else
    (s.(store := s2, log := Announce(s.log, Deleted, r.value, c.publish)), Done)
  }

  ghost function Step(b: Backend, s: Sys, c: Call): (Sys, Response) {
    match c
    case CreateCall(_, _, _, _, _, _, _, _, _) => StepCreate(b, s, c)
    case GetCall(_, _) => StepGet(b, s, c)
    case UpdateCall(_, _, _, _, _, _, _) => StepUpdate(b, s, c)
    case DeleteCall(_, _, _, _) => StepDelete(b, s, c)
    case ElapseCall(dt) => (s.(store := Elapse(s.store, dt)), Done)
  }

  // ---- Runs ------------------------------------------------------------------------------------

  /** The system after a sequence of requests. */
  ghost function Run(b: Backend, s: Sys, cs: seq<Call>): Sys
    decreases |cs|
  {
    if cs == [] then s else Run(b, Step(b, s, cs[0]).0, cs[1..])
  }

  /** The responses to a sequence of requests, in order. */
  ghost function Responses(b: Backend, s: Sys, cs: seq<Call>): (rs: seq<Response>)
    ensures |rs| == |cs|
    decreases |cs|
  {
    if cs == [] then [] else
    var (s', r) := Step(b, s, cs[0]);
    [r] + Responses(b, s', cs[1..])
  }

  /** No id is handed out twice. */
  ghost predicate FreshIds(b: Backend, s: Sys, cs: seq<Call>)
    decreases |cs|
  {
    cs != [] ==>
    && (cs[0].CreateCall? ==> cs[0].id !in s.issued)
    && FreshIds(b, Step(b, s, cs[0]).0, cs[1..])
  }

  // ---- Every request keeps the store healing ---------------------------------------------------

  /** The horizon after a request, moved only by a response that reports a failed invalidation. */
  function StepHorizon(r: Response, s: Store, ttl: Ttl, h: nat): nat {
    if r == Failed(ErrInvalidate) then s.clock + ttl else h
  }

  lemma CreateUserHeals(s: Sys, c: Call, ttl: Ttl, h: nat)
    requires c.CreateCall? && Heals(s.store, ttl, h)
    ensures var (s', r) := StepCreate(Cached(ttl), s, c);
            Heals(s'.store, ttl, StepHorizon(r, s'.store, ttl, h))
  {
    if c.hash.Some? {
      var u, b := NewUser(c), Cached(ttl);
      GetByHeals(s.store, ttl, ByEmail(u.email), c.byEmail, h);
      var s1 := GetBy(b, s.store, ByEmail(u.email), c.byEmail).0;
      GetByHeals(s1, ttl, ByNickname(u.nickname), c.byNickname, h);
      var s2 := GetBy(b, s1, ByNickname(u.nickname), c.byNickname).0;
      CreateHeals(s2, u, ttl, c.write, h);
    }
  }

  lemma EmailGuardHeals(s: Store, u: User, c: Call, ttl: Ttl, h: nat)
    requires c.UpdateCall? && Heals(s, ttl, h)
    ensures var s' := EmailGuard(Cached(ttl), s, u, c).0;
            Heals(s', ttl, h) && s'.table == s.table && s.clock <= s'.clock
  {
    GetByHeals(s, ttl, ByEmail(c.patch.email), c.byEmail, h);
  }

  lemma UpdateUserHeals(s: Sys, c: Call, ttl: Ttl, h: nat)
    requires c.UpdateCall? && Heals(s.store, ttl, h)
    ensures var (s', r) := StepUpdate(Cached(ttl), s, c);
            Heals(s'.store, ttl, StepHorizon(r, s'.store, ttl, h))
  {
    var b := Cached(ttl);
    GetByHeals(s.store, ttl, ById(c.id), c.byId, h);
    var (s1, r) := GetBy(b, s.store, ById(c.id), c.byId);
    if r.Ok? {
      EmailGuardHeals(s1, r.value, c, ttl, h);
      ChangeHeals(EmailGuard(b, s1, r.value, c).0, Patched(r.value, c.patch), c.now, ttl, c.write, h);
    }
  }

  lemma DeleteUserHeals(s: Sys, c: Call, ttl: Ttl, h: nat)
    requires c.DeleteCall? && Heals(s.store, ttl, h)
    ensures var (s', r) := StepDelete(Cached(ttl), s, c);
            Heals(s'.store, ttl, StepHorizon(r, s'.store, ttl, h))
  {
    GetByHeals(s.store, ttl, ById(c.id), c.byId, h);
    RemoveHeals(GetBy(Cached(ttl), s.store, ById(c.id), c.byId).0, c.id, ttl, c.write, h);
  }

  lemma StepHeals(s: Sys, c: Call, ttl: Ttl, h: nat)
    requires Heals(s.store, ttl, h)
    ensures var (s', r) := Step(Cached(ttl), s, c);
            Heals(s'.store, ttl, StepHorizon(r, s'.store, ttl, h))
  {
    match c
    case CreateCall(_, _, _, _, _, _, _, _, _) => CreateUserHeals(s, c, ttl, h);
    case GetCall(_, _) => GetByHeals(s.store, ttl, ById(c.id), c.byId, h);
    case UpdateCall(_, _, _, _, _, _, _) => UpdateUserHeals(s, c, ttl, h);
    case DeleteCall(_, _, _, _) => DeleteUserHeals(s, c, ttl, h);
    case ElapseCall(_) =>
  }

  // ---- What every request does to the table and to the log ----------------------------------------

  lemma CreateUserWrites(s: Sys, c: Call, ttl: Ttl, h: nat)
    requires c.CreateCall? && c.hash.Some? && Heals(s.store, ttl, h)
    ensures var (s', r) := StepCreate(Cached(ttl), s, c);
            var u, t, t' := NewUser(c), s.store.table, s'.store.table;
            && s'.issued == s.issued + {c.id}
            && (t' == t || (u.id !in t && t' == t[u.id := u]))
            && (s'.log != s.log ==>
                s'.log == s.log + [UserEvent(Created, u, c.publish)] && t' == t[u.id := u])
            && r != Failed(ErrInvalidate)
            && (s'.log == s.log && !c.write.fill.failed && !c.publish.fails ==> t' == t)
  {
    var u, b := NewUser(c), Cached(ttl);
    GetByHeals(s.store, ttl, ByEmail(u.email), c.byEmail, h);
    var s1 := GetBy(b, s.store, ByEmail(u.email), c.byEmail).0;
    GetByHeals(s1, ttl, ByNickname(u.nickname), c.byNickname, h);
    var s2 := GetBy(b, s1, ByNickname(u.nickname), c.byNickname).0;
    CreateWrites(s2, u, ttl, c.write);
  }

  /** An update either leaves table and log alone, or rewrites the row of u and may announce it. */
  ghost predicate UpdateWrites(s: Sys, s': Sys, r: Response, u: User, c: Call)
    requires c.UpdateCall?
  {
    var t, t' := s.store.table, s'.store.table;
    var written := u.id in t && t' == t[u.id := Rewritten(t[u.id], u, c.now)];
    var w := c.write;
    var smooth := !w.purge.failed && !w.rereadFails && !w.fill.failed && !c.publish.fails;
    && s'.issued == s.issued
    && (t' == t || written)
    && (s'.log == s.log || (s'.log == s.log + [UserEvent(Updated, u, c.publish)] && written))
    && (smooth && s'.log == s.log ==> t' == t)
    && (r == Failed(ErrInvalidate) ==> w.purge.failed)
  }

  lemma SaveUserWrites(s: Sys, u: User, c: Call, ttl: Ttl)
    requires c.UpdateCall? && TableOk(s.store.table)
    ensures var (s', r) := SaveUser(Cached(ttl), s, u, c); UpdateWrites(s, s', r, u, c)
  {
    ChangeWrites(s.store, u, c.now, ttl, c.write);
  }

  /** The copies of a row, current or not, carry its creation date. */
  predicate CopiesDated(s: Store, id: Uuid) {
    forall k | k in s.cache && s.cache[k].user.id == id && id in s.table ::
      s.cache[k].user.createdAt == s.table[id].createdAt
  }

  lemma UpdateUserWrites(s: Sys, c: Call, ttl: Ttl, h: nat) returns (u: User)
    requires c.UpdateCall? && Heals(s.store, ttl, h)
    ensures var (s', r) := StepUpdate(Cached(ttl), s, c);
            && UpdateWrites(s, s', r, u, c)
            && u.id == c.id
            && (c.id in s.store.table && (h == 0 || CopiesDated(s.store, c.id)) ==>
                  u.createdAt == s.store.table[c.id].createdAt)
  {
    var b := Cached(ttl);
    GetByHeals(s.store, ttl, ById(c.id), c.byId, h);
    GetByAnswers(s.store, ttl, ById(c.id), c.byId, h);
    var (s1, r) := GetBy(b, s.store, ById(c.id), c.byId);
    if r.Ok? {
      u := Patched(r.value, c.patch);
      EmailGuardHeals(s1, r.value, c, ttl, h);
      SaveUserWrites(s.(store := EmailGuard(b, s1, r.value, c).0), u, c, ttl);
    } else {
      u := if c.id in s.store.table then s.store.table[c.id] else c.patch.(id := c.id);
    }
  }

  lemma DeleteUserWrites(s: Sys, c: Call, ttl: Ttl, h: nat) returns (u: User)
    requires c.DeleteCall? && Heals(s.store, ttl, h)
    ensures var (s', r) := StepDelete(Cached(ttl), s, c);
            var t, t' := s.store.table, s'.store.table;
            && s'.issued == s.issued
            && u.id == c.id
            && (r == Failed(ErrInvalidate) ==> c.write.purge.failed)
            && (t' == t || (u.id in t && t' == t - {u.id}))
            && (s'.log != s.log ==>
                && s'.log == s.log + [UserEvent(Deleted, u, c.publish)]
                && u.id in t && t' == t - {u.id})
            && (s'.log == s.log && !c.write.purge.failed && !c.publish.fails ==> t' == t)
  {
    GetByHeals(s.store, ttl, ById(c.id), c.byId, h);
    var (s1, r) := GetBy(Cached(ttl), s.store, ById(c.id), c.byId);
    RemoveWrites(s1, c.id, ttl, c.write);
    u := if r.Ok? then r.value else User(c.id, "", "", "", "", "", "", 0, 0);
  }

  // ---- The service object ----------------------------------------------------------------------

  class UserService {
    const repo: CacheDecorator
    const publisher: UserEventPublisher
    ghost var issued: set<Uuid>

    constructor (repo: CacheDecorator, publisher: UserEventPublisher)
      ensures this.repo == repo && this.publisher == publisher && issued == {}
    {
      this.repo, this.publisher := repo, publisher;
      issued := {};
    }

    ghost function View(): Sys
      reads this, publisher, repo.repo, repo.redis
    {
      Sys(repo.View(), publisher.log, issued)
    }

    method CreateUser(c: Call) returns (r: Response)
      requires c.CreateCall? && TableOk(repo.repo.table)
      modifies this, publisher, repo.repo, repo.redis
      ensures TableOk(repo.repo.table)
      ensures (View(), r) == StepCreate(Cached(repo.ttl), old(View()), c)
    {
      var user := c.input;
      if c.hash.None? {
        return Failed(ErrHash);
      }
      user := user.(id := c.id);
      issued := issued + {c.id};
      user := user.(password := c.hash.value);
      user := user.(createdAt := c.createdAt);
      user := user.(updatedAt := c.updatedAt);
      var byEmail := repo.GetByEmail(user.email, c.byEmail);
      if byEmail.Ok? {
        return Failed(ErrEmailTaken);
      }
      var byNickname := repo.GetByNickname(user.nickname, c.byNickname);
      if byNickname.Ok? {
        return Failed(ErrNicknameTaken);
      }
      var saved := repo.Create(user, c.write);
      if saved.Err? {
        return Failed(saved.error);
      }
      var _ := publisher.PublishCreatedUser(user, c.publish);
      return Returned(user);
    }

    method GetUser(c: Call) returns (r: Response)
      requires c.GetCall? && TableOk(repo.repo.table)
      modifies repo.redis
      ensures TableOk(repo.repo.table)
      ensures (View(), r) == StepGet(Cached(repo.ttl), old(View()), c)
    {
      var found := repo.GetByID(c.id, c.byId);
      if found.Err? {
        return Failed(found.error);
      }
      return Returned(found.value);
    }

    /** The fields that a patch may change without asking anyone. */
    static method PatchNames(found: User, patch: User) returns (user: User)
      ensures user == Patched(found, patch).(email := found.email)
      ensures user.firstName == if patch.firstName == "" then found.firstName else patch.firstName
      ensures user.lastName == if patch.lastName == "" then found.lastName else patch.lastName
      ensures user.nickname == if patch.nickname == "" then found.nickname else patch.nickname
      ensures user.country == if patch.country == "" then found.country else patch.country
      ensures user == found.(firstName := user.firstName, lastName := user.lastName,
                             nickname := user.nickname, country := user.country)
    {
      user := found;
      if patch.firstName != "" && user.firstName != patch.firstName {
        user := user.(firstName := patch.firstName);
      }
      if patch.lastName != "" && user.lastName != patch.lastName {
        user := user.(lastName := patch.lastName);
      }
      if patch.nickname != "" && user.nickname != patch.nickname {
        user := user.(nickname := patch.nickname);
      }
      if patch.country != "" && user.country != patch.country {
        user := user.(country := patch.country);
      }
    }

    method UpdateUser(c: Call) returns (r: Response)
      requires c.UpdateCall? && TableOk(repo.repo.table)
      modifies publisher, repo.repo, repo.redis
      ensures TableOk(repo.repo.table)
      ensures (View(), r) == StepUpdate(Cached(repo.ttl), old(View()), c)
    {
      var found := repo.GetByID(c.id, c.byId);
      if found.Err? {
        return Failed(found.error);
      }
      var user := found.value;
      user := PatchNames(user, c.patch);
      if c.patch.email != "" && user.email != c.patch.email {
        var existing := repo.GetByEmail(c.patch.email, c.byEmail);
        if existing.Ok? && existing.value.id != c.id {
          return Failed(ErrEmailTaken);
        }
        user := user.(email := c.patch.email);
      }
      var saved := repo.Update(user, c.now, c.write);
      if saved.Err? {
        return Failed(saved.error);
      }
      var _ := publisher.PublishUpdatedUser(user, c.publish);
      return Returned(user);
    }

    method DeleteUser(c: Call) returns (r: Response)
      requires c.DeleteCall? && TableOk(repo.repo.table)
      modifies publisher, repo.repo, repo.redis
      ensures TableOk(repo.repo.table)
      ensures (View(), r) == StepDelete(Cached(repo.ttl), old(View()), c)
    {
      var found := repo.GetByID(c.id, c.byId);
      if found.Err? {
        return Failed(found.error);
      }
      var gone := repo.Delete(c.id, c.write);
      if gone.Err? {
        return Failed(gone.error);
      }
      var _ := publisher.PublishDeletedUser(found.value, c.publish);
      return Done;
    }
  }
}
