/** The sequential decorator is the case of interleaving in which one request moves and the others
    stand still: each of its operations, under any faults, is a run of steps. */
module Sequential {
  import opened Domain
  import opened Database
  import opened Cache
  import opened Concurrent
  import opened Reach

  /** The unexpired part of a store, with these requests in flight. */
  function Live(st: Store, procs: seq<Proc>): State {
    State(st.table, map k | k in st.cache && st.clock < st.cache[k].deadline :: st.cache[k].user, procs)
  }

  /** Time that passes lets entries expire. */
  lemma {:induction false} ElapseReaches(st: Store, dt: nat, procs: seq<Proc>)
    ensures Reaches(Live(st, procs), Live(Elapse(st, dt), procs), Anyhow)
  {
    var s, s' := Live(st, procs), Live(Elapse(st, dt), procs);
    var gone := s.cache.Keys - s'.cache.Keys;
    ExpiryReaches(s, gone, Anyhow);
    assert s.cache - gone == s'.cache;
  }

  lemma {:induction false} FirstStep(s: State, p: nat, a: Action, s2: State)
    requires Apply(s, Act(p, a)) == s2
    ensures Reaches(s, s2, Anyhow)
  {
    Once(s, Act(p, a), Anyhow);
  }

  /** What a finished fill, some SETs lost, leaves unexpired. */
  lemma {:induction false} LiveFilled(st: Store, u: User, ttl: Ttl, o: Pipe, procs: seq<Proc>)
    ensures Live(Filled(st, u, ttl, o), procs).cache
            == Overlaid(Live(Elapse(st, o.dt), procs).cache, KeyList(u), o.Lost(), Erase(u))
  {
    var st', before := Filled(st, u, ttl, o), Live(Elapse(st, o.dt), procs).cache;
    var after, expected := Live(st', procs).cache, Overlaid(before, KeyList(u), o.Lost(), Erase(u));
    KeyListIs(u);
    forall k ensures (k in after <==> k in expected) && (k in after ==> after[k] == expected[k]) {
      if k in KeysOf(u) - o.Lost() {
        assert st'.cache[k] == Entry(Erase(u), st'.clock + ttl);
      } else {
        assert k in st'.cache <==> k in st.cache;
      }
    }
  }

  lemma {:induction false} LivePurged(st: Store, u: User, o: Pipe, procs: seq<Proc>)
    ensures Live(Purged(st, u, o), procs).cache
            == Live(Elapse(st, o.dt), procs).cache - set k | k in KeyList(u) && k !in o.Lost()
  {
    KeyListIs(u);
  }

  /** A pipeline that reported an error is cut off, though all its commands may have been carried out. */
  lemma {:induction false} CutOff(s: State, s1: State, p: nat, failed: bool, s2: State)
    requires p < |s1.procs| && Reaches(s, s1, Anyhow) && s2 == if failed then s1.With(p, Idle) else s1
    ensures Reaches(s, s2, Anyhow)
  {
    if failed {
      Further(s, s1, p, Abort, s2, Anyhow);
    }
  }

  lemma {:induction false} FillRuns(st: Store, u: User, o: Pipe, procs: seq<Proc>, p: nat, asked: Option<Key>)
    requires p < |procs| && procs[p] == Filling(u, KeyList(u), asked)
    ensures Reaches(Live(st, procs), FillEnd(Live(Elapse(st, o.dt), procs), p, o.Lost()), Anyhow)
  {
    var s, s1 := Live(st, procs), Live(Elapse(st, o.dt), procs);
    ElapseReaches(st, o.dt, procs);
    FillReaches(s1, p, o.Lost(), Anyhow);
    Then(s, s1, FillEnd(s1, p, o.Lost()), Anyhow);
  }

  lemma {:induction false} SoloFill(st: Store, u: User, ttl: Ttl, o: Pipe,
                                    procs: seq<Proc>, p: nat, asked: Option<Key>)
    requires p < |procs| && procs[p] == Filling(u, KeyList(u), asked)
    ensures Reaches(Live(st, procs),
                    Live(Filled(st, u, ttl, o), procs[p := if o.failed then Idle else FillNext(u, [], asked)]), Anyhow)
  {
    var s1 := FillEnd(Live(Elapse(st, o.dt), procs), p, o.Lost());
    var procs' := procs[p := if o.failed then Idle else FillNext(u, [], asked)];
    var s2 := Live(Filled(st, u, ttl, o), procs');
    FillRuns(st, u, o, procs, p, asked);
    LiveFilled(st, u, ttl, o, procs);
    assert (if o.failed then s1.With(p, Idle) else s1).procs == procs';
    CutOff(Live(st, procs), s1, p, o.failed, s2);
  }

  lemma {:induction false} PurgeRuns(st: Store, row: User, o: Pipe, procs: seq<Proc>, p: nat, again: bool)
    requires p < |procs| && procs[p] == Purging(row, KeyList(row), again)
    ensures Reaches(Live(st, procs), PurgeEnd(Live(Elapse(st, o.dt), procs), p, o.Lost()), Anyhow)
  {
    var s, s1 := Live(st, procs), Live(Elapse(st, o.dt), procs);
    ElapseReaches(st, o.dt, procs);
    PurgeReaches(s1, p, o.Lost(), Anyhow);
    Then(s, s1, PurgeEnd(s1, p, o.Lost()), Anyhow);
  }

  lemma {:induction false} SoloPurge(st: Store, row: User, o: Pipe, procs: seq<Proc>, p: nat, again: bool)
    requires p < |procs| && procs[p] == Purging(row, KeyList(row), again)
    ensures Reaches(Live(st, procs),
                    Live(Purged(st, row, o), procs[p := if o.failed then Idle else PurgeNext(row, [], again)]), Anyhow)
  {
    var s1 := PurgeEnd(Live(Elapse(st, o.dt), procs), p, o.Lost());
    var procs' := procs[p := if o.failed then Idle else PurgeNext(row, [], again)];
    var s2 := Live(Purged(st, row, o), procs');
    PurgeRuns(st, row, o, procs, p, again);
    LivePurged(st, row, o, procs);
    assert (if o.failed then s1.With(p, Idle) else s1).procs == procs';
    CutOff(Live(st, procs), s1, p, o.failed, s2);
  }

  /** A request of any kind starts where another has ended. */
  lemma {:induction false} Begins(st: Store, procs: seq<Proc>, p: nat, r: Proc)
    requires p < |procs| && Ended(procs[p]) && (r.Getting? || r.Inserting? || r.Opening?)
    ensures Reaches(Live(st, procs), Live(st, procs[p := r]), Anyhow)
  {
    FirstStep(Live(st, procs), p, Start(r), Live(st, procs[p := r]));
  }

  // ---- The four operations ---------------------------------------------------------------------

  lemma {:induction false} SoloLookup(st: Store, k: Key, ttl: Ttl, o: Read, procs: seq<Proc>, p: nat)
    requires p < |procs| && procs[p] == Getting(k)
    ensures var (st', r) := GetBy(Cached(ttl), st, k, o);
            Reaches(Live(st, procs), Live(st', procs[p := if r.Ok? then Answered(k, r.value) else Idle]), Anyhow)
  {
    var st1 := Elapse(st, o.dt);
    var s, s1 := Live(st, procs), Live(st1, procs);
    ElapseReaches(st, o.dt, procs);
    if !o.getFails && Peek(st1, k).Some? {
      Further(s, s1, p, Next(0), Live(st1, procs[p := Answered(k, Peek(st1, k).value)]), Anyhow);
    } else {
      var missed := procs[p := Selecting(k)];
      Further(s, s1, p, if o.getFails then Lose else Next(0), Live(st1, missed), Anyhow);
      SoloSelect(st1, k, ttl, o, missed, p);
      var (st', r) := GetBy(Cached(ttl), st, k, o);
      var end := if r.Ok? then Answered(k, r.value) else Idle;
      assert missed[p := end] == procs[p := end];
      Then(s, Live(st1, missed), Live(st', procs[p := end]), Anyhow);
    }
  }

  /** The part of a lookup after a miss. */
  ghost function AfterMiss(st: Store, k: Key, ttl: Ttl, o: Read): (Store, Result<User>) {
    var r := Select(st.table, k, o.dbFails);
    if r.Err? then (st, r)
    else (Filled(st, r.value, ttl, o.fill), if o.fill.failed then Err(ErrFill) else r)
  }

  lemma {:induction false} SoloSelect(st: Store, k: Key, ttl: Ttl, o: Read, procs: seq<Proc>, p: nat)
    requires p < |procs| && procs[p] == Selecting(k)
    ensures var (st', r) := AfterMiss(st, k, ttl, o);
            Reaches(Live(st, procs), Live(st', procs[p := if r.Ok? then Answered(k, r.value) else Idle]), Anyhow)
  {
    var s := Live(st, procs);
    var r := Select(st.table, k, o.dbFails);
    if r.Err? {
      FirstStep(s, p, if o.dbFails then Abort else Next(0), Live(st, procs[p := Idle]));
    } else {
      var u := r.value;
      var filling := procs[p := Filling(u, KeyList(u), Some(k))];
      FirstStep(s, p, Next(0), Live(st, filling));
      SoloFill(st, u, ttl, o.fill, filling, p, Some(k));
      var (st', r') := AfterMiss(st, k, ttl, o);
      var end := if r'.Ok? then Answered(k, r'.value) else Idle;
      assert filling[p := end] == procs[p := end];
      Then(s, Live(st, filling), Live(st', procs[p := end]), Anyhow);
    }
  }

  lemma {:induction false} SoloCreate(st: Store, u: User, ttl: Ttl, o: Write, procs: seq<Proc>, p: nat)
    requires p < |procs| && procs[p] == Inserting(u)
    ensures var st' := Add(Cached(ttl), st, u, o).0;
            Reaches(Live(st, procs), Live(st', procs[p := Idle]), Anyhow)
  {
    var s := Live(st, procs);
    var t := InsertRow(st.table, u, o.execFails);
    if t.Err? {
      FirstStep(s, p, if o.execFails then Abort else Next(0), Live(st, procs[p := Idle]));
    } else {
      var st1 := st.(table := t.value);
      var filling := procs[p := Filling(u, KeyList(u), None)];
      FirstStep(s, p, Next(0), Live(st1, filling));
      SoloFill(st1, u, ttl, o.fill, filling, p, None);
      assert filling[p := Idle] == procs[p := Idle];
      Then(s, Live(st1, filling), Live(Filled(st1, u, ttl, o.fill), procs[p := Idle]), Anyhow);
    }
  }

  lemma {:induction false} SoloChange(st: Store, u: User, now: int, ttl: Ttl, o: Write, procs: seq<Proc>, p: nat)
    requires p < |procs| && procs[p] == Opening(Put(u))
    ensures var st' := Change(Cached(ttl), st, u, now, o).0;
            Reaches(Live(st, procs), Live(st', procs[p := Idle]), Anyhow)
  {
    var s := Live(st, procs);
    var row := Select(st.table, ById(u.id), o.oldFails);
    if row.Err? {
      FirstStep(s, p, if o.oldFails then Abort else Next(0), Live(st, procs[p := Idle]));
    } else {
      var holding := procs[p := Holding(row.value, Put(u))];
      FirstStep(s, p, Next(0), Live(st, holding));
      SoloCommit(st, row.value, u, now, ttl, o, holding, p);
      assert holding[p := Idle] == procs[p := Idle];
      Then(s, Live(st, holding), Live(Change(Cached(ttl), st, u, now, o).0, procs[p := Idle]), Anyhow);
    }
  }

  lemma {:induction false} SoloCommit(st: Store, row: User, u: User, now: int, ttl: Ttl, o: Write,
                                      procs: seq<Proc>, p: nat)
    requires p < |procs| && procs[p] == Holding(row, Put(u))
    requires Select(st.table, ById(u.id), o.oldFails) == Ok(row)
    ensures Reaches(Live(st, procs), Live(Change(Cached(ttl), st, u, now, o).0, procs[p := Idle]), Anyhow)
  {
    var s := Live(st, procs);
    var t := UpdateRow(st.table, u, now, o.execFails);
    if t.Err? {
      FirstStep(s, p, if o.execFails then Abort else Next(now), Live(st, procs[p := Idle]));
    } else {
      var st1 := st.(table := t.value);
      var purging := procs[p := Purging(row, KeyList(row), true)];
      FirstStep(s, p, Next(now), Live(st1, purging));
      SoloRenew(st1, row, u.id, ttl, o, purging, p);
      assert purging[p := Idle] == procs[p := Idle];
      Then(s, Live(st1, purging), Live(Change(Cached(ttl), st, u, now, o).0, procs[p := Idle]), Anyhow);
    }
  }

  /** The part of an update after its commit. */
  ghost function Renewed(st: Store, row: User, ttl: Ttl, o: Write): Store {
    var st' := Purged(st, row, o.purge);
    if o.purge.failed then st' else Refreshed(st', row.id, ttl, o)
  }

  lemma {:induction false} SoloRenew(st: Store, row: User, id: Uuid, ttl: Ttl, o: Write, procs: seq<Proc>, p: nat)
    requires p < |procs| && procs[p] == Purging(row, KeyList(row), true) && row.id == id
    ensures Reaches(Live(st, procs), Live(Renewed(st, row, ttl, o), procs[p := Idle]), Anyhow)
  {
    var st' := Purged(st, row, o.purge);
    var purged := procs[p := if o.purge.failed then Idle else Rereading(id)];
    SoloPurge(st, row, o.purge, procs, p, true);
    if !o.purge.failed {
      SoloRefresh(st', id, ttl, o, purged, p);
      assert purged[p := Idle] == procs[p := Idle];
      Then(Live(st, procs), Live(st', purged), Live(Refreshed(st', id, ttl, o), procs[p := Idle]), Anyhow);
    }
  }

  /** The part of an update after its purge. */
  ghost function Refreshed(st: Store, id: Uuid, ttl: Ttl, o: Write): Store {
    var next := Select(st.table, ById(id), o.rereadFails);
    if next.Err? then st else Filled(st, next.value, ttl, o.fill)
  }

  lemma {:induction false} SoloRefresh(st: Store, id: Uuid, ttl: Ttl, o: Write, procs: seq<Proc>, p: nat)
    requires p < |procs| && procs[p] == Rereading(id)
    ensures Reaches(Live(st, procs), Live(Refreshed(st, id, ttl, o), procs[p := Idle]), Anyhow)
  {
    var s := Live(st, procs);
    var next := Select(st.table, ById(id), o.rereadFails);
    if next.Err? {
      FirstStep(s, p, if o.rereadFails then Abort else Next(0), Live(st, procs[p := Idle]));
    } else {
      var u := next.value;
      var filling := procs[p := Filling(u, KeyList(u), None)];
      FirstStep(s, p, Next(0), Live(st, filling));
      SoloFill(st, u, ttl, o.fill, filling, p, None);
      assert filling[p := Idle] == procs[p := Idle];
      Then(s, Live(st, filling), Live(Refreshed(st, id, ttl, o), procs[p := Idle]), Anyhow);
    }
  }

  lemma {:induction false} SoloRemove(st: Store, id: Uuid, ttl: Ttl, o: Write, procs: seq<Proc>, p: nat)
    requires p < |procs| && procs[p] == Opening(Drop(id))
    ensures var st' := Remove(Cached(ttl), st, id, o).0;
            Reaches(Live(st, procs), Live(st', procs[p := Idle]), Anyhow)
  {
    var s := Live(st, procs);
    var row := Select(st.table, ById(id), o.oldFails);
    if row.Err? {
      FirstStep(s, p, if o.oldFails then Abort else Next(0), Live(st, procs[p := Idle]));
    } else {
      var holding := procs[p := Holding(row.value, Drop(id))];
      FirstStep(s, p, Next(0), Live(st, holding));
      SoloErase(st, row.value, id, ttl, o, holding, p);
      assert holding[p := Idle] == procs[p := Idle];
      Then(s, Live(st, holding), Live(Remove(Cached(ttl), st, id, o).0, procs[p := Idle]), Anyhow);
    }
  }

  lemma {:induction false} SoloErase(st: Store, row: User, id: Uuid, ttl: Ttl, o: Write, procs: seq<Proc>, p: nat)
    requires p < |procs| && procs[p] == Holding(row, Drop(id))
    requires Select(st.table, ById(id), o.oldFails) == Ok(row)
    ensures Reaches(Live(st, procs), Live(Remove(Cached(ttl), st, id, o).0, procs[p := Idle]), Anyhow)
  {
    var s := Live(st, procs);
    var t := DeleteRow(st.table, id, o.execFails);
    if t.Err? {
      FirstStep(s, p, if o.execFails then Abort else Next(0), Live(st, procs[p := Idle]));
    } else {
      var st1 := st.(table := t.value);
      var purging := procs[p := Purging(row, KeyList(row), false)];
      FirstStep(s, p, Next(0), Live(st1, purging));
      SoloPurge(st1, row, o.purge, purging, p, false);
      assert purging[p := Idle] == procs[p := Idle];
      Then(s, Live(st1, purging), Live(Purged(st1, row, o.purge), procs[p := Idle]), Anyhow);
    }
  }
}
