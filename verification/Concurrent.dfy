/** Many requests in flight: every statement and every single Redis command is one atomic step. */
module Concurrent {
  import opened Domain
  import opened Database
  import opened Cache

  datatype Mutation = Put(user: User) | Drop(id: Uuid) {
    function Id(): Uuid {
      if Put? then user.id else id
    }
  }

  /** Where a request stands, named by what it does next, with the locals it still needs. */
  datatype Proc =
    | Idle
    | Getting(key: Key)
    | Selecting(key: Key)
    | Inserting(user: User)
    | Opening(change: Mutation)
    | Holding(row: User, change: Mutation)
    | Purging(row: User, todo: seq<Key>, again: bool)
    | Rereading(id: Uuid)
    | Filling(user: User, todo: seq<Key>, asked: Option<Key>)
    | Answered(key: Key, user: User)

  /** The cache maps keys to what JSON gives back; expiry is a step of its own. */
  datatype State = State(table: Table, cache: map<Key, User>, procs: seq<Proc>) {
    function With(p: nat, q: Proc): State
      requires p < |procs|
    {
      this.(procs := procs[p := q])
    }
  }

  /** Next performs the pending command. Lose drops the pending Redis command, Abort ends the request. */
  datatype Action = Start(request: Proc) | Next(now: int) | Lose | Abort

  datatype Label = Act(p: nat, action: Action) | Expire(key: Key)

  /** The order in which a pipeline names a user's keys. */
  function KeyList(u: User): seq<Key> {
    [ById(u.id), ByEmail(u.email), ByNickname(u.nickname)]
  }

  lemma KeyListIs(u: User)
    ensures forall k :: k in KeyList(u) <==> k in KeysOf(u)
  {
  }

  // ---- Steps -----------------------------------------------------------------------------------

  function FillNext(u: User, todo: seq<Key>, asked: Option<Key>): Proc {
    if todo != [] then Filling(u, todo, asked)
    else if asked.Some? then Answered(asked.value, u)
    else Idle
  }

  function PurgeNext(row: User, todo: seq<Key>, again: bool): Proc {
    if todo != [] then Purging(row, todo, again)
    else if again then Rereading(row.id)
    else Idle
  }

  function Commit(t: Table, change: Mutation, now: int): Result<Table> {
    if change.Put? then UpdateRow(t, change.user, now, false) else DeleteRow(t, change.id, false)
  }

  /** A SELECT, and what the request turns into when it finds the row. */
  ghost function ReadRow(s: State, p: nat, k: Key, found: User -> Proc): State
    requires p < |s.procs|
  {
    match Find(s.table, k)
    case None => s.With(p, Idle)
    case Some(u) => s.With(p, found(u))
  }

  ghost function Perform(s: State, p: nat, now: int): State
    requires p < |s.procs|
  {
    match s.procs[p]
    case Idle => s
    case Answered(_, _) => s
    case Getting(k) =>
      s.With(p, if k in s.cache then Answered(k, s.cache[k]) else Selecting(k))
    case Selecting(k) =>
      ReadRow(s, p, k, u => FillNext(u, KeyList(u), Some(k)))
    case Inserting(u) =>
      var t := InsertRow(s.table, u, false);
      if t.Err? then s.With(p, Idle)
      else s.With(p, FillNext(u, KeyList(u), None)).(table := t.value)
    case Opening(change) =>
      ReadRow(s, p, ById(change.Id()), u => Holding(u, change))
    case Holding(row, change) =>
      var t := Commit(s.table, change, now);
      if t.Err? then s.With(p, Idle)
      else s.With(p, PurgeNext(row, KeyList(row), change.Put?)).(table := t.value)
    case Purging(row, todo, again) =>
      if todo == [] then s else
      s.With(p, PurgeNext(row, todo[1..], again)).(cache := s.cache - {todo[0]})
    case Rereading(id) =>
      ReadRow(s, p, ById(id), u => FillNext(u, KeyList(u), None))
    case Filling(u, todo, asked) =>
      if todo == [] then s else
      s.With(p, FillNext(u, todo[1..], asked)).(cache := s.cache[todo[0] := Erase(u)])
  }

  /** A lost command is skipped and its pipeline reports an error, which ends the request after it;
      a failed GET counts as a miss. */
  function Skip(s: State, p: nat): State
    requires p < |s.procs|
  {
    match s.procs[p]
    case Getting(k) => s.With(p, Selecting(k))
    case Purging(row, todo, _) => if todo == [] then s else s.With(p, PurgeNext(row, todo[1..], false))
    case Filling(u, todo, _) => if todo == [] then s else s.With(p, FillNext(u, todo[1..], None))
    case _ => s
  }

  ghost function Apply(s: State, l: Label): State {
    match l
    case Expire(k) => s.(cache := s.cache - {k})
    case Act(p, a) =>
      if |s.procs| <= p then s else
      match a
      case Start(r) =>
        if (s.procs[p].Idle? || s.procs[p].Answered?) && (r.Getting? || r.Inserting? || r.Opening?)
        then s.With(p, r) else s
      case Next(now) => Perform(s, p, now)
      case Lose => Skip(s, p)
      case Abort => s.With(p, Idle)
  }

  ghost function Run(s: State, ls: seq<Label>): State
    decreases |ls|
  {
    if ls == [] then s else Run(Apply(s, ls[0]), ls[1..])
  }

  /** A step by a request moves no other request. */
  lemma {:induction false} OthersStandStill(s: State, l: Label)
    ensures var s' := Apply(s, l);
            && |s'.procs| == |s.procs|
            && forall i: nat | i < |s.procs| && !(l.Act? && i == l.p) :: s'.procs[i] == s.procs[i]
  {
    if l.Act? && l.p < |s.procs| && l.action.Next? {
      assert Perform(s, l.p, l.action.now).procs[l.p := s.procs[l.p]] == s.procs;
    }
  }

  // ---- Coherence ---------------------------------------------------------------------------------

  /** A writer will purge the keys of its own row, a filler sets keys of its own user. */
  predicate Shaped(q: Proc) {
    && (q.Holding? ==> q.change.Id() == q.row.id)
    && (q.Filling? ==> forall k | k in q.todo :: Owns(q.user, k))
  }

  /** What the request has read still serves its purpose: a writer's row names the keys of the row
      that is there, and a row about to be cached is the present one. */
  ghost predicate Fits(t: Table, q: Proc) {
    && (q.Holding? && q.row.id in t ==> KeysOf(q.row) == KeysOf(t[q.row.id]))
    && (q.Filling? && q.todo != [] ==> Current(t, Erase(q.user)))
  }

  /** The step writes to the table what makes another request's reading unfit for its purpose. */
  ghost predicate Intrudes(s: State, l: Label) {
    && l.Act?
    && exists q: nat | q < |s.procs| ::
         q != l.p && Fits(s.table, s.procs[q]) && !Fits(Apply(s, l).table, s.procs[q])
  }

  /** A writer of the id is in the middle of its invalidation and about to delete the key. */
  predicate PurgePending(s: State, k: Key, id: Uuid) {
    exists p: nat | p < |s.procs| ::
      s.procs[p].Purging? && s.procs[p].row.id == id && k in s.procs[p].todo
  }

  /** An invalidation loses a DEL, or is cut off, and with it goes the last deletion pending of a
      stale entry. */
  ghost predicate SpoilsPurge(s: State, l: Label) {
    && l.Act? && l.p < |s.procs| && s.procs[l.p].Purging? && (l.action.Lose? || l.action.Abort?)
    && exists k | k in s.cache ::
         && !Current(s.table, s.cache[k])
         && PurgePending(s, k, s.cache[k].id) && !PurgePending(Apply(s, l), k, s.cache[k].id)
  }

  /** No step intrudes, and no invalidation is spoilt. Everything else may fail or interleave. */
  ghost predicate Orderly(s: State, ls: seq<Label>)
    decreases |ls|
  {
    ls != [] ==>
      !Intrudes(s, ls[0]) && !SpoilsPurge(s, ls[0]) && Orderly(Apply(s, ls[0]), ls[1..])
  }

  ghost predicate ProcOk(t: Table, q: Proc) {
    Shaped(q) && Fits(t, q)
  }

  /** Each entry is the present row of its id, unless a writer of that id is about to delete it. */
  ghost predicate Inv(s: State) {
    && TableOk(s.table)
    && (forall k | k in s.cache :: Owns(s.cache[k], k))
    && (forall k | k in s.cache :: Current(s.table, s.cache[k]) || PurgePending(s, k, s.cache[k].id))
    && (forall i | 0 <= i < |s.procs| :: ProcOk(s.table, s.procs[i]))
  }

  /** When one request moves, pending deletions of the others stay pending. */
  lemma OthersStayPending(s: State, p: nat, q: Proc, k: Key, id: Uuid)
    requires p < |s.procs| && PurgePending(s, k, id)
    requires s.procs[p].Purging? && k in s.procs[p].todo ==>
               q.Purging? && q.row == s.procs[p].row && k in q.todo
    ensures PurgePending(s.With(p, q), k, id)
  {
    var i: nat :| i < |s.procs| && s.procs[i].Purging? && s.procs[i].row.id == id && k in s.procs[i].todo;
    var s' := s.With(p, q);
    assert i != p ==> s'.procs[i] == s.procs[i];
    assert s'.procs[i].Purging? && s'.procs[i].row.id == id && k in s'.procs[i].todo;
  }

  /** A request that does not purge takes no pending deletion with it. */
  lemma AllStayPending(s: State, p: nat, q: Proc)
    requires p < |s.procs| && (s.procs[p].Purging? ==> s.procs[p].todo == [])
    ensures forall k, id :: PurgePending(s, k, id) ==> PurgePending(s.With(p, q), k, id)
  {
    forall k, id | PurgePending(s, k, id) ensures PurgePending(s.With(p, q), k, id) {
      OthersStayPending(s, p, q, k, id);
    }
  }

  /** A move that leaves table and cache alone, and is not the end of a purge with work to do. */
  lemma MoveKeepsInv(s: State, p: nat, q: Proc)
    requires Inv(s) && p < |s.procs| && ProcOk(s.table, q)
    requires s.procs[p].Purging? ==> s.procs[p].todo == []
    ensures Inv(s.With(p, q))
  {
    AllStayPending(s, p, q);
  }

  /** Where nobody intrudes, the other requests still fit after the step. */
  lemma OthersFit(s: State, p: nat, a: Action)
    requires Inv(s) && p < |s.procs| && !Intrudes(s, Act(p, a))
    ensures forall i: nat | i < |s.procs| && i != p :: ProcOk(Apply(s, Act(p, a)).table, s.procs[i])
  {
    forall i: nat | i < |s.procs| && i != p ensures ProcOk(Apply(s, Act(p, a)).table, s.procs[i]) {
      assert ProcOk(s.table, s.procs[i]);
    }
  }

  /** UPDATE or DELETE: the copies of the old row are now stale, and this request will delete them. */
  lemma CommitKeepsInv(s: State, p: nat, now: int)
    requires Inv(s) && p < |s.procs| && s.procs[p].Holding?
    requires !Intrudes(s, Act(p, Next(now)))
    ensures Inv(Perform(s, p, now))
  {
    var row, change := s.procs[p].row, s.procs[p].change;
    assert ProcOk(s.table, s.procs[p]);
    var t := Commit(s.table, change, now);
    if t.Err? {
      MoveKeepsInv(s, p, Idle);
    } else {
      var q := PurgeNext(row, KeyList(row), change.Put?);
      var s' := s.With(p, q).(table := t.value);
      CommitChangesOne(s.table, change, now);
      forall k | k in s'.cache ensures Current(s'.table, s'.cache[k]) || PurgePending(s', k, s'.cache[k].id) {
        if PurgePending(s, k, s.cache[k].id) {
          OthersStayPending(s, p, q, k, s.cache[k].id);
        } else if s.cache[k].id == row.id {
          assert k in KeysOf(row) by { assert Owns(s.table[row.id], k); }
          assert s'.procs[p].Purging? && k in s'.procs[p].todo;
        }
      }
      OthersFit(s, p, Next(now));
      assert Perform(s, p, now) == s';
      forall i | 0 <= i < |s'.procs| ensures ProcOk(s'.table, s'.procs[i]) {
        assert i != p ==> s'.procs[i] == s.procs[i];
      }
    }
  }

  lemma CommitChangesOne(t: Table, change: Mutation, now: int)
    requires TableOk(t) && Commit(t, change, now).Ok?
    ensures var t' := Commit(t, change, now).value;
            && TableOk(t')
            && forall id | id != change.Id() :: (id in t' <==> id in t) && (id in t ==> t'[id] == t[id])
  {
    if change.Put? {
      UpdateAdmitsExactly(t, change.user, now);
    } else {
      DeleteKeepsTableOk(t, change.id);
    }
  }

  /** INSERT: a new row disturbs no entry, and no request but one that waits to write its id. */
  lemma InsertKeepsInv(s: State, p: nat, now: int)
    requires Inv(s) && p < |s.procs| && s.procs[p].Inserting?
    requires !Intrudes(s, Act(p, Next(now)))
    ensures Inv(Perform(s, p, now))
  {
    var u := s.procs[p].user;
    if InsertRow(s.table, u, false).Err? {
      MoveKeepsInv(s, p, Idle);
    } else {
      InsertAdmitsExactly(s.table, u);
      OthersFit(s, p, Next(now));
      NewRowKeepsInv(s, p, u);
    }
  }

  lemma NewRowKeepsInv(s: State, p: nat, u: User)
    requires Inv(s) && p < |s.procs| && !s.procs[p].Purging?
    requires u.id !in s.table && TableOk(s.table[u.id := u])
    requires forall i: nat | i < |s.procs| && i != p :: ProcOk(s.table[u.id := u], s.procs[i])
    ensures Inv(s.With(p, FillNext(u, KeyList(u), None)).(table := s.table[u.id := u]))
  {
    var q, t := FillNext(u, KeyList(u), None), s.table[u.id := u];
    AllStayPending(s, p, q);
    var s' := s.With(p, q).(table := t);
    assert s'.procs == s.With(p, q).procs;
    forall k | k in s'.cache ensures Current(t, s'.cache[k]) || PurgePending(s', k, s'.cache[k].id) {
      PendingByProcs(s.With(p, q), s', k, s.cache[k].id);
    }
    assert ProcOk(t, q);
  }

  lemma PendingByProcs(s: State, s': State, k: Key, id: Uuid)
    requires s'.procs == s.procs
    ensures PurgePending(s, k, id) <==> PurgePending(s', k, id)
  {
  }

  lemma DelKeepsInv(s: State, p: nat, now: int)
    requires Inv(s) && p < |s.procs| && s.procs[p].Purging?
    ensures Inv(Perform(s, p, now))
  {
    var todo := s.procs[p].todo;
    if todo != [] {
      var q := PurgeNext(s.procs[p].row, todo[1..], s.procs[p].again);
      var s' := s.With(p, q).(cache := s.cache - {todo[0]});
      forall k, id | k in s'.cache && PurgePending(s, k, id) ensures PurgePending(s', k, id) {
        assert k in todo ==> k in todo[1..] by { assert todo == [todo[0]] + todo[1..]; }
        OthersStayPending(s, p, q, k, id);
      }
    }
  }

  lemma SetKeepsInv(s: State, p: nat, now: int)
    requires Inv(s) && p < |s.procs| && s.procs[p].Filling?
    ensures Inv(Perform(s, p, now))
  {
    var u, todo := s.procs[p].user, s.procs[p].todo;
    assert ProcOk(s.table, s.procs[p]);
    if todo != [] {
      var q := FillNext(u, todo[1..], s.procs[p].asked);
      assert Owns(u, todo[0]);
      MoveKeepsInv(s, p, q);
    }
  }

  lemma ReadKeepsInv(s: State, p: nat, k: Key, found: User -> Proc)
    requires Inv(s) && p < |s.procs| && !s.procs[p].Purging?
    requires Find(s.table, k).Some? ==> ProcOk(s.table, found(Find(s.table, k).value))
    ensures Inv(ReadRow(s, p, k, found))
  {
    MoveKeepsInv(s, p, if Find(s.table, k).Some? then found(Find(s.table, k).value) else Idle);
  }

  /** A row just read is the row of its id. */
  lemma FoundIsOk(t: Table, k: Key, asked: Option<Key>, change: Mutation)
    requires TableOk(t) && Find(t, k).Some?
    ensures var u := Find(t, k).value;
            ProcOk(t, FillNext(u, KeyList(u), asked)) && (k == ById(change.Id()) ==> ProcOk(t, Holding(u, change)))
  {
  }

  lemma SelectKeepsInv(s: State, p: nat, now: int)
    requires Inv(s) && p < |s.procs|
    requires s.procs[p].Selecting? || s.procs[p].Opening? || s.procs[p].Rereading?
    ensures Inv(Perform(s, p, now))
  {
    match s.procs[p]
    case Selecting(k) =>
      if Find(s.table, k).Some? { FoundIsOk(s.table, k, Some(k), Drop(Find(s.table, k).value.id)); }
      ReadKeepsInv(s, p, k, u => FillNext(u, KeyList(u), Some(k)));
    case Opening(change) =>
      if Find(s.table, ById(change.Id())).Some? { FoundIsOk(s.table, ById(change.Id()), None, change); }
      ReadKeepsInv(s, p, ById(change.Id()), u => Holding(u, change));
    case Rereading(id) =>
      if Find(s.table, ById(id)).Some? { FoundIsOk(s.table, ById(id), None, Drop(id)); }
      ReadKeepsInv(s, p, ById(id), u => FillNext(u, KeyList(u), None));
  }

  /** A lost command or a cut-off leaves table and cache alone. */
  lemma FaultKeepsInv(s: State, p: nat, a: Action)
    requires Inv(s) && p < |s.procs| && (a.Lose? || a.Abort?) && !SpoilsPurge(s, Act(p, a))
    ensures Inv(Apply(s, Act(p, a)))
  {
    var s' := Apply(s, Act(p, a));
    assert ProcOk(s.table, s.procs[p]);
    assert s' == s.With(p, s'.procs[p]);
    assert ProcOk(s.table, s'.procs[p]);
    if !s.procs[p].Purging? {
      MoveKeepsInv(s, p, s'.procs[p]);
    }
  }

  lemma StepKeepsInv(s: State, l: Label)
    requires Inv(s) && !Intrudes(s, l) && !SpoilsPurge(s, l)
    ensures Inv(Apply(s, l))
  {
    match l
    case Expire(_) =>
    case Act(p, Start(r)) => if p < |s.procs| && Apply(s, l) != s { MoveKeepsInv(s, p, r); }
    case Act(p, Abort) => if p < |s.procs| { FaultKeepsInv(s, p, Abort); }
    case Act(p, Lose) => if p < |s.procs| { FaultKeepsInv(s, p, Lose); }
    case Act(p, Next(now)) =>
      if p < |s.procs| {
        match s.procs[p]
        case Holding(_, _) => CommitKeepsInv(s, p, now);
        case Inserting(_) => InsertKeepsInv(s, p, now);
        case Purging(_, _, _) => DelKeepsInv(s, p, now);
        case Filling(_, _, _) => SetKeepsInv(s, p, now);
        case Getting(_) => MoveKeepsInv(s, p, Perform(s, p, now).procs[p]);
        case Idle =>
        case Answered(_, _) =>
        case _ => SelectKeepsInv(s, p, now);
      }
  }

  /** In every orderly interleaving each entry is current, or a writer of its id is about to delete it. */
  lemma {:induction false} ConcurrentCoherence(s: State, ls: seq<Label>)
    requires Inv(s) && Orderly(s, ls)
    ensures Inv(Run(s, ls))
    decreases |ls|
  {
    if ls != [] {
      StepKeepsInv(s, ls[0]);
      ConcurrentCoherence(Apply(s, ls[0]), ls[1..]);
    }
  }

  /** From an empty cache: whenever no invalidation is in flight, the whole cache agrees with the table. */
  lemma QuiescentCoherence(t: Table, n: nat, ls: seq<Label>)
    requires TableOk(t) && Orderly(State(t, map[], seq(n, _ => Idle)), ls)
    ensures var s := Run(State(t, map[], seq(n, _ => Idle)), ls);
            (forall p: nat | p < |s.procs| :: !s.procs[p].Purging?) ==>
              forall k | k in s.cache :: Owns(s.cache[k], k) && Current(s.table, s.cache[k])
  {
    ConcurrentCoherence(State(t, map[], seq(n, _ => Idle)), ls);
  }

  /** In all interleavings, with any faults and no discipline, emails and nicknames stay unique. */
  lemma {:induction false} TableStaysOk(s: State, ls: seq<Label>)
    requires TableOk(s.table)
    ensures TableOk(Run(s, ls).table)
    decreases |ls|
  {
    if ls != [] {
      StepKeepsTableOk(s, ls[0]);
      TableStaysOk(Apply(s, ls[0]), ls[1..]);
    }
  }

  lemma StepKeepsTableOk(s: State, l: Label)
    requires TableOk(s.table)
    ensures TableOk(Apply(s, l).table)
  {
    if l.Act? && l.p < |s.procs| && l.action.Next? {
      PerformKeepsTableOk(s, l.p, l.action.now);
    }
  }

  lemma PerformKeepsTableOk(s: State, p: nat, now: int)
    requires TableOk(s.table) && p < |s.procs|
    ensures TableOk(Perform(s, p, now).table)
  {
    var q := s.procs[p];
    if q.Inserting? {
      InsertAdmitsExactly(s.table, q.user);
    } else if q.Holding? && Commit(s.table, q.change, now).Ok? {
      CommitChangesOne(s.table, q.change, now);
    } else {
      assert Perform(s, p, now).table == s.table;
    }
  }
}
