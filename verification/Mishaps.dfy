/** Runs that go wrong: from an empty cache, without any fault, two requests leave a stale entry behind;
    one request and a lost deletion do so too. */
module Mishaps {
  import opened Domain
  import opened Database
  import opened Cache
  import opened Concurrent
  import opened Reach
  import opened Discipline

  /** A table, an empty cache, and n requests yet to come. */
  function Beginning(t: Table, n: nat): State {
    State(t, map[], seq(n, _ => Idle))
  }

  /** Only the one request has moved. */
  predicate Moved(s: State, s': State, p: nat) {
    && p < |s.procs| == |s'.procs|
    && forall i: nat | i < |s.procs| && i != p :: s'.procs[i] == s.procs[i]
  }

  /** From the commit through the purge, some DELs lost. */
  lemma {:induction false} Purges(s: State, p: nat, now: int, lost: set<Key>, m: Manner) returns (s': State)
    requires p < |s.procs| && s.procs[p].Holding? && Commit(s.table, s.procs[p].change, now).Ok?
    requires m.Lossily? || (m.Faultlessly? && lost == {})
    ensures Reaches(s, s', m) && s'.table == Commit(s.table, s.procs[p].change, now).value
    ensures Moved(s, s', p)
    ensures lost == {} && s.procs[p].change.Put? ==> s'.procs[p] == Rereading(s.procs[p].row.id)
    ensures lost * KeysOf(s.procs[p].row) != {} || s.procs[p].change.Drop? ==> s'.procs[p] == Idle
    ensures s'.cache == s.cache - (KeysOf(s.procs[p].row) - lost)
  {
    var Holding(row, change) := s.procs[p];
    var s1 := Apply(s, Act(p, Next(now)));
    assert s1 == s.With(p, Purging(row, KeyList(row), change.Put?)).(table := s1.table);
    Stays(s, m);
    Further(s, s, p, Next(now), s1, m);
    PurgeReaches(s1, p, lost, m);
    s' := PurgeEnd(s1, p, lost);
    Then(s, s1, s', m);
    KeyListIs(row);
    if k :| k in lost * KeysOf(row) {
      assert k in KeyList(row);
    }
    assert (set k | k in KeyList(row) && k !in lost) == KeysOf(row) - lost;
  }

  /** A fill carried out. */
  lemma {:induction false} Fills(s: State, p: nat, m: Manner) returns (s': State)
    requires p < |s.procs| && s.procs[p].Filling? && s.procs[p].todo == KeyList(s.procs[p].user)
    requires m.Faultlessly? || m.Lossily?
    ensures Reaches(s, s', m) && s'.table == s.table && Moved(s, s', p) && Ended(s'.procs[p])
    ensures var u := s.procs[p].user; s'.cache == s.cache + map k | k in KeysOf(u) :: Erase(u)
  {
    var u := s.procs[p].user;
    FillReaches(s, p, {}, m);
    s' := FillEnd(s, p, {});
    KeyListIs(u);
    assert s'.cache == Overlaid(s.cache, KeyList(u), {}, Erase(u));
  }

  /** What a finished write leaves of the cache: copies of the new row, and all but the old row's keys. */
  ghost predicate Rewrote(s: State, s': State, row: User, change: Mutation) {
    && (forall k | k in s.cache && !Owns(row, k) && (row.id in s'.table ==> !Owns(s'.table[row.id], k)) ::
          k in s'.cache && s'.cache[k] == s.cache[k])
    && (change.Put? ==>
          row.id in s'.table
          && forall k | Owns(s'.table[row.id], k) :: k in s'.cache && s'.cache[k] == Erase(s'.table[row.id]))
  }

  /** A write from its commit to its end, without faults. */
  lemma {:induction false} Writes(s: State, p: nat, now: int) returns (s': State)
    requires p < |s.procs| && s.procs[p].Holding? && Shaped(s.procs[p]) && TableOk(s.table)
    requires Commit(s.table, s.procs[p].change, now).Ok?
    ensures Reaches(s, s', Faultlessly) && s'.table == Commit(s.table, s.procs[p].change, now).value
    ensures Moved(s, s', p) && Ended(s'.procs[p]) && Rewrote(s, s', s.procs[p].row, s.procs[p].change)
  {
    var Holding(row, change) := s.procs[p];
    CommitChangesOne(s.table, change, now);
    var s1 := Purges(s, p, now, {}, Faultlessly);
    s' := s1;
    if change.Put? {
      s' := Refreshes(s1, p, row.id);
      Then(s, s1, s', Faultlessly);
    }
  }

  /** The end of an update: the row is read back and cached. */
  lemma {:induction false} Refreshes(s: State, p: nat, id: Uuid) returns (s': State)
    requires p < |s.procs| && s.procs[p] == Rereading(id) && TableOk(s.table) && id in s.table
    ensures Reaches(s, s', Faultlessly) && s'.table == s.table && Moved(s, s', p) && Ended(s'.procs[p])
    ensures var v := s.table[id]; s'.cache == s.cache + map k | k in KeysOf(v) :: Erase(v)
  {
    var v := s.table[id];
    FindIs(s.table, ById(id), id);
    var s1 := s.With(p, Filling(v, KeyList(v), None));
    Stays(s, Faultlessly);
    Further(s, s, p, Next(0), s1, Faultlessly);
    s' := Fills(s1, p, Faultlessly);
    Then(s, s1, s', Faultlessly);
  }

  // ---- The runs ----------------------------------------------------------------------------------

  /** A lookup reads the row, an update or a deletion of it runs from start to end, and then the lookup
      fills: nothing failed, nothing is in flight, and the entry is of the row that was. */
  lemma {:induction false} FillOvertaken(t: Table, n: nat, change: Mutation, now: int)
    requires TableOk(t) && 2 <= n && change.Id() in t && Commit(t, change, now).Ok?
    requires !Current(Commit(t, change, now).value, Erase(t[change.Id()]))
    ensures exists s' :: Reaches(Beginning(t, n), s', Faultlessly) && LeftStale(s')
  {
    var s, m, row := Beginning(t, n), Faultlessly, t[change.Id()];
    var s1 := s.With(0, Filling(row, KeyList(row), Some(ById(row.id))));
    Looks(s, 0, ById(row.id), row.id, m);
    var s2 := s1.With(1, Holding(row, change));
    Opens(s1, 1, change, m);
    Then(s, s1, s2, m);
    var s3 := Writes(s2, 1, now);
    Then(s, s2, s3, m);
    assert s3.procs[0] == s1.procs[0];
    var s4 := Fills(s3, 0, m);
    Then(s, s3, s4, m);
    assert ById(row.id) in s4.cache && s4.cache[ById(row.id)] == Erase(row);
    assert forall i: nat | 2 <= i < n :: s4.procs[i] == Idle;
    assert LeftStale(s4);
  }

  /** A write reads the row, an update of it that brings a new key runs from start to end, and then the
      write commits and leaves that key behind: it is none of those it knows, and not its own. */
  lemma {:induction false} WriterOvertaken(t: Table, n: nat, u: User, now: int, change: Mutation, now': int, k: Key)
    requires TableOk(t) && 2 <= n && u.id in t && change.Id() == u.id
    requires UpdateRow(t, u, now, false).Ok?
    requires var t1 := UpdateRow(t, u, now, false).value;
             && Commit(t1, change, now').Ok?
             && Owns(t1[u.id], k) && !Owns(t[u.id], k)
             && var t2 := Commit(t1, change, now').value; u.id in t2 ==> !Owns(t2[u.id], k)
    ensures exists s' :: Reaches(Beginning(t, n), s', Faultlessly) && LeftStale(s')
  {
    var s1 := BothOpen(t, n, change, u);
    var s2 := Overtakes(s1, u, now, change, now', k);
    Then(Beginning(t, n), s1, s2, Faultlessly);
    assert LeftStale(s2);
  }

  /** The second of two writers commits and ends, and then the first. */
  lemma {:induction false} Overtakes(s: State, u: User, now: int, change: Mutation, now': int, k: Key)
    returns (s': State)
    requires 2 <= |s.procs| && TableOk(s.table) && u.id in s.table && change.Id() == u.id
    requires s.procs[0] == Holding(s.table[u.id], change) && s.procs[1] == Holding(s.table[u.id], Put(u))
    requires forall i: nat | 2 <= i < |s.procs| :: Ended(s.procs[i])
    requires UpdateRow(s.table, u, now, false).Ok?
    requires var t1 := UpdateRow(s.table, u, now, false).value;
             && Commit(t1, change, now').Ok?
             && Owns(t1[u.id], k) && !Owns(s.table[u.id], k)
             && var t2 := Commit(t1, change, now').value; u.id in t2 ==> !Owns(t2[u.id], k)
    ensures Reaches(s, s', Faultlessly) && LeftStale(s')
  {
    var s1 := Writes(s, 1, now);
    CommitChangesOne(s.table, Put(u), now);
    assert k in s1.cache && s1.cache[k] == Erase(s1.table[u.id]);
    s' := LateWrites(s1, 0, now', k);
    Then(s, s1, s', Faultlessly);
  }

  /** Two writes that have read the same row. */
  lemma {:induction false} BothOpen(t: Table, n: nat, change: Mutation, u: User) returns (s': State)
    requires TableOk(t) && 2 <= n && u.id in t && change.Id() == u.id
    ensures Reaches(Beginning(t, n), s', Faultlessly) && s'.table == t && s'.cache == map[] && |s'.procs| == n
    ensures s'.procs[0] == Holding(t[u.id], change) && s'.procs[1] == Holding(t[u.id], Put(u))
    ensures forall i: nat | 2 <= i < n :: s'.procs[i] == Idle
  {
    var s := Beginning(t, n);
    var s1 := s.With(0, Holding(t[u.id], change));
    Opens(s, 0, change, Faultlessly);
    s' := s1.With(1, Holding(t[u.id], Put(u)));
    Opens(s1, 1, Put(u), Faultlessly);
    Then(s, s1, s', Faultlessly);
  }

  /** A writer that knows nothing of a cached key of the present row. */
  lemma {:induction false} LateWrites(s: State, p: nat, now: int, k: Key) returns (s': State)
    requires p < |s.procs| && s.procs[p].Holding? && Shaped(s.procs[p]) && TableOk(s.table)
    requires Commit(s.table, s.procs[p].change, now).Ok?
    requires var row := s.procs[p].row;
             && row.id in s.table && Owns(s.table[row.id], k) && !Owns(row, k)
             && k in s.cache && s.cache[k] == Erase(s.table[row.id])
             && var t := Commit(s.table, s.procs[p].change, now).value; row.id in t ==> !Owns(t[row.id], k)
    ensures Reaches(s, s', Faultlessly) && Moved(s, s', p) && Ended(s'.procs[p])
    ensures k in s'.cache && !Current(s'.table, s'.cache[k])
  {
    s' := Writes(s, p, now);
    var row := s.procs[p].row;
    assert Owns(s.cache[k], k) && s'.cache[k] == s.cache[k];
    assert row.id in s'.table ==> !Owns(Erase(s'.table[row.id]), k);
  }

  /** One request at a time, and a write whose invalidation loses the DEL of a cached key. */
  lemma {:induction false} DeletionLost(t: Table, change: Mutation, now: int, k: Key)
    requires TableOk(t) && change.Id() in t && Commit(t, change, now).Ok? && Owns(t[change.Id()], k)
    requires !Current(Commit(t, change, now).value, Erase(t[change.Id()]))
    ensures exists s' :: Reaches(Beginning(t, 1), s', Lossily) && LeftStale(s')
  {
    var s, m, row := Beginning(t, 1), Lossily, t[change.Id()];
    var s1 := s.With(0, Filling(row, KeyList(row), Some(ById(row.id))));
    Looks(s, 0, ById(row.id), row.id, m);
    var s2 := Fills(s1, 0, m);
    Then(s, s1, s2, m);
    var s3 := s2.With(0, Holding(row, change));
    Opens(s2, 0, change, m);
    Then(s, s2, s3, m);
    var s4 := Purges(s3, 0, now, {k}, m);
    Then(s, s3, s4, m);
    assert k in {k} * KeysOf(row);
    assert k in s4.cache && s4.cache[k] == Erase(row);
    assert LeftStale(s4);
  }

  /** Where no fault occurs the harm is done by an intrusion, at some step of the run. */
  lemma {:induction false} FaultlessHarmIntrudes(s: State, ls: seq<Label>)
    requires Inv(s) && Unhindered(ls, false) && LeftStale(Run(s, ls))
    ensures exists i: nat :: i < |ls| && Intrudes(Run(s, ls[..i]), ls[i])
    decreases |ls|
  {
    if ls == [] {
      Stays(s, Calmly);
      InvIsSafe(s);
    } else if Intrudes(s, ls[0]) {
      assert Run(s, ls[..0]) == s;
    } else {
      var s1 := Apply(s, ls[0]);
      assert ls[0] in ls;
      StepKeepsInv(s, ls[0]);
      FaultlessHarmIntrudes(s1, ls[1..]);
      var i: nat :| i < |ls[1..]| && Intrudes(Run(s1, ls[1..][..i]), ls[1..][i]);
      OneStepLater(s, ls, i);
      assert Intrudes(Run(s, ls[..i + 1]), ls[i + 1]);
    }
  }

  lemma {:induction false} OneStepLater(s: State, ls: seq<Label>, i: nat)
    requires i < |ls|
    ensures Run(s, ls[..i + 1]) == Run(Apply(s, ls[0]), ls[1..][..i])
  {
    assert ls[..i + 1][0] == ls[0] && ls[..i + 1][1..] == ls[1..][..i];
  }
}
