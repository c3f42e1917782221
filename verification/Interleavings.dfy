/** Interleavings without any discipline: every answer and every entry is history. */
module Interleavings {
  import opened Domain
  import opened Database
  import opened Concurrent

  /** The rows of a table as a cache would hold them. */
  function Versions(t: Table): set<User> {
    set id | id in t :: Erase(t[id])
  }

  /** Every row version that the table held at some moment of the run. */
  ghost function Seen(s: State, ls: seq<Label>): set<User>
    decreases |ls|
  {
    Versions(s.table) + if ls == [] then {} else Seen(Apply(s, ls[0]), ls[1..])
  }

  ghost predicate ProcRemembers(q: Proc, seen: set<User>) {
    && (q.Filling? ==>
          && Erase(q.user) in seen
          && (forall k | k in q.todo :: Owns(q.user, k))
          && (q.asked.Some? ==> Owns(q.user, q.asked.value)))
    && (q.Answered? ==> Owns(q.user, q.key) && Erase(q.user) in seen)
  }

  /** Entries and answers own the key they stand for, and are versions seen so far. */
  ghost predicate Remembers(s: State, seen: set<User>) {
    && Versions(s.table) <= seen
    && (forall k | k in s.cache :: Owns(s.cache[k], k) && s.cache[k] in seen && s.cache[k].password == "")
    && (forall i | 0 <= i < |s.procs| :: ProcRemembers(s.procs[i], seen))
  }

  lemma FoundIsAVersion(t: Table, k: Key)
    ensures Find(t, k).Some? ==> Owns(Find(t, k).value, k) && Erase(Find(t, k).value) in Versions(t)
  {
  }

  lemma MoveRemembers(s: State, p: nat, q: Proc, seen: set<User>)
    requires Remembers(s, seen) && p < |s.procs| && ProcRemembers(q, seen)
    ensures Remembers(s.With(p, q), seen)
  {
  }

  lemma WriteRemembers(s: State, p: nat, q: Proc, t: Table, seen: set<User>)
    requires Remembers(s, seen) && p < |s.procs| && ProcRemembers(q, seen + Versions(t))
    ensures Remembers(s.With(p, q).(table := t), seen + Versions(t))
  {
    var seen' := seen + Versions(t);
    forall i | 0 <= i < |s.procs| ensures ProcRemembers(s.procs[i], seen') {
      assert ProcRemembers(s.procs[i], seen);
    }
  }

  lemma SelectRemembers(s: State, p: nat, now: int, seen: set<User>)
    requires Remembers(s, seen) && p < |s.procs|
    requires s.procs[p].Selecting? || s.procs[p].Opening? || s.procs[p].Rereading?
    ensures Remembers(Perform(s, p, now), seen)
  {
    match s.procs[p]
    case Selecting(k) =>
      FoundIsAVersion(s.table, k);
      MoveRemembers(s, p, Perform(s, p, now).procs[p], seen);
    case Opening(_) =>
      MoveRemembers(s, p, Perform(s, p, now).procs[p], seen);
    case Rereading(id) =>
      FoundIsAVersion(s.table, ById(id));
      MoveRemembers(s, p, Perform(s, p, now).procs[p], seen);
  }

  lemma CommandRemembers(s: State, p: nat, now: int, seen: set<User>)
    requires Remembers(s, seen) && p < |s.procs|
    requires s.procs[p].Getting? || s.procs[p].Purging? || s.procs[p].Filling?
    ensures Remembers(Perform(s, p, now), seen)
  {
    assert ProcRemembers(s.procs[p], seen);
    match s.procs[p]
    case Getting(k) =>
      assert k in s.cache ==> Erase(s.cache[k]) == s.cache[k];
      MoveRemembers(s, p, Perform(s, p, now).procs[p], seen);
    case Purging(row, todo, again) =>
      if todo != [] {
        MoveRemembers(s, p, PurgeNext(row, todo[1..], again), seen);
      }
    case Filling(u, todo, asked) =>
      if todo != [] {
        assert Owns(u, todo[0]);
        MoveRemembers(s, p, FillNext(u, todo[1..], asked), seen);
      }
  }

  lemma StatementRemembers(s: State, p: nat, now: int, seen: set<User>)
    requires Remembers(s, seen) && p < |s.procs|
    requires s.procs[p].Inserting? || s.procs[p].Holding?
    ensures var s' := Perform(s, p, now); Remembers(s', seen + Versions(s'.table))
  {
    match s.procs[p]
    case Inserting(u) =>
      var t := InsertRow(s.table, u, false);
      if t.Ok? {
        assert t.value[u.id] == u;
        WriteRemembers(s, p, FillNext(u, KeyList(u), None), t.value, seen);
      } else {
        WriteRemembers(s, p, Idle, s.table, seen);
      }
    case Holding(row, change) =>
      var t := Commit(s.table, change, now);
      if t.Ok? {
        WriteRemembers(s, p, PurgeNext(row, KeyList(row), change.Put?), t.value, seen);
      } else {
        WriteRemembers(s, p, Idle, s.table, seen);
      }
  }

  lemma PerformRemembers(s: State, p: nat, now: int, seen: set<User>)
    requires Remembers(s, seen) && p < |s.procs|
    ensures var s' := Perform(s, p, now); Remembers(s', seen + Versions(s'.table))
  {
    assert seen + Versions(s.table) == seen;
    var q := s.procs[p];
    if q.Selecting? || q.Opening? || q.Rereading? {
      SelectRemembers(s, p, now, seen);
    } else if q.Getting? || q.Purging? || q.Filling? {
      CommandRemembers(s, p, now, seen);
    } else if q.Inserting? || q.Holding? {
      StatementRemembers(s, p, now, seen);
    }
  }

  lemma StepRemembers(s: State, l: Label, seen: set<User>)
    requires Remembers(s, seen)
    ensures Remembers(Apply(s, l), seen + Versions(Apply(s, l).table))
  {
    match l
    case Expire(_) =>
    case Act(p, Next(now)) => if p < |s.procs| { PerformRemembers(s, p, now, seen); }
    case Act(p, a) =>
      assert seen + Versions(s.table) == seen;
      if p < |s.procs| { OtherwiseRemembers(s, p, a, seen); }
  }

  /** Starting, losing a command and being cut off move one request. */
  lemma OtherwiseRemembers(s: State, p: nat, a: Action, seen: set<User>)
    requires Remembers(s, seen) && p < |s.procs| && !a.Next?
    ensures Remembers(Apply(s, Act(p, a)), seen)
  {
    assert ProcRemembers(s.procs[p], seen);
    var q := Apply(s, Act(p, a)).procs[p];
    assert Apply(s, Act(p, a)) == s.With(p, q);
    MoveRemembers(s, p, q, seen);
  }

  lemma {:induction false} RunRemembers(s: State, ls: seq<Label>, seen: set<User>)
    requires Remembers(s, seen)
    ensures Remembers(Run(s, ls), seen + Seen(s, ls))
    decreases |ls|
  {
    if ls == [] {
      assert seen + Seen(s, ls) == seen;
    } else {
      var s' := Apply(s, ls[0]);
      StepRemembers(s, ls[0], seen);
      RunRemembers(s', ls[1..], seen + Versions(s'.table));
      assert seen + Versions(s'.table) + Seen(s', ls[1..]) == seen + Seen(s, ls);
    }
  }

  /** In all interleavings, with any faults: a lookup by id, email or nickname never returns a user
      without that id, email or nickname, and always some version of the user that the table held. */
  lemma AnswersAreHistory(t: Table, n: nat, ls: seq<Label>, p: nat)
    requires p < |Run(State(t, map[], seq(n, _ => Idle)), ls).procs|
    ensures var s0 := State(t, map[], seq(n, _ => Idle));
            var q := Run(s0, ls).procs[p];
            q.Answered? ==> Owns(q.user, q.key) && Erase(q.user) in Seen(s0, ls)
  {
    var s0 := State(t, map[], seq(n, _ => Idle));
    RunRemembers(s0, ls, Versions(t));
    assert Versions(t) + Seen(s0, ls) == Seen(s0, ls);
    assert ProcRemembers(Run(s0, ls).procs[p], Seen(s0, ls));
  }
}
