/** Runs put together: what some sequence of steps can lead to, and whole pipelines at a time. */
module Reach {
  import opened Domain
  import opened Database
  import opened Concurrent

  /** In any way, without disorder, with no fault but lost Redis commands, or without any fault. */
  datatype Manner = Anyhow | Calmly | Lossily | Faultlessly

  /** Requests start and carry out what they mean to do: nothing is cut off or expires, and unless
      losses are allowed nothing is lost. */
  predicate Unhindered(ls: seq<Label>, losses: bool) {
    forall l | l in ls :: l.Act? && (l.action.Start? || l.action.Next? || (losses && l.action.Lose?))
  }

  ghost predicate Kept(m: Manner, s: State, ls: seq<Label>) {
    match m
    case Anyhow => true
    case Calmly => Orderly(s, ls)
    case Lossily => Unhindered(ls, true)
    case Faultlessly => Unhindered(ls, false)
  }

  /** Some steps in that manner lead from one state to the other. */
  ghost predicate Reaches(s: State, s': State, m: Manner) {
    exists ls :: Run(s, ls) == s' && Kept(m, s, ls)
  }

  /** What one step must not do. */
  ghost predicate Allowed(m: Manner, s: State, l: Label) {
    match m
    case Anyhow => true
    case Calmly => !Intrudes(s, l) && !SpoilsPurge(s, l)
    case Lossily => Unhindered([l], true)
    case Faultlessly => Unhindered([l], false)
  }

  lemma {:induction false} RunAppends(s: State, ls: seq<Label>, ms: seq<Label>)
    ensures Run(s, ls + ms) == Run(Run(s, ls), ms)
    ensures Orderly(s, ls + ms) <==> Orderly(s, ls) && Orderly(Run(s, ls), ms)
    decreases |ls|
  {
    if ls == [] {
      assert ls + ms == ms;
    } else {
      assert (ls + ms)[0] == ls[0] && (ls + ms)[1..] == ls[1..] + ms;
      RunAppends(Apply(s, ls[0]), ls[1..], ms);
    }
  }

  lemma {:induction false} Stays(s: State, m: Manner)
    ensures Reaches(s, s, m)
  {
    assert Run(s, []) == s;
  }

  lemma {:induction false} Then(s: State, s1: State, s2: State, m: Manner)
    requires Reaches(s, s1, m) && Reaches(s1, s2, m)
    ensures Reaches(s, s2, m)
  {
    var ls :| Run(s, ls) == s1 && Kept(m, s, ls);
    var ms :| Run(s1, ms) == s2 && Kept(m, s1, ms);
    RunAppends(s, ls, ms);
    assert Run(s, ls + ms) == s2;
  }

  lemma {:induction false} Once(s: State, l: Label, m: Manner)
    requires Allowed(m, s, l)
    ensures Reaches(s, Apply(s, l), m)
  {
    var ls := [l];
    assert ls[1..] == [];
    assert Run(Apply(s, l), []) == Apply(s, l);
    assert Run(s, ls) == Apply(s, l);
    assert Orderly(Apply(s, l), []);
  }

  /** A step that leaves the table alone intrudes on nobody. */
  lemma {:induction false} Quietly(s: State, p: nat, a: Action, m: Manner)
    requires p < |s.procs| && Apply(s, Act(p, a)).table == s.table
    requires a.Lose? || a.Abort? ==>
               m.Anyhow? || (m.Lossily? && a.Lose?) || (m.Calmly? && !s.procs[p].Purging?)
    ensures Reaches(s, Apply(s, Act(p, a)), m)
  {
    Once(s, Act(p, a), m);
  }

  /** One more step after a run. */
  lemma {:induction false} Further(s: State, s1: State, p: nat, a: Action, s2: State, m: Manner)
    requires Reaches(s, s1, m) && Allowed(m, s1, Act(p, a)) && Apply(s1, Act(p, a)) == s2
    ensures Reaches(s, s2, m)
  {
    Once(s1, Act(p, a), m);
    Then(s, s1, s2, m);
  }

  /** A start, or a step that means to leave the table alone, is allowed in any manner. */
  lemma {:induction false} Onwards(s: State, s1: State, p: nat, a: Action, s2: State, m: Manner)
    requires Reaches(s, s1, m) && (a.Start? || a.Next?) && Apply(s1, Act(p, a)) == s2 && s2.table == s1.table
    ensures Reaches(s, s2, m)
  {
    Further(s, s1, p, a, s2, m);
  }

  predicate Ended(q: Proc) {
    q.Idle? || q.Answered?
  }

  /** A write up to its commit: the old row is read. */
  lemma {:induction false} Opens(s: State, p: nat, change: Mutation, m: Manner)
    requires p < |s.procs| && Ended(s.procs[p]) && TableOk(s.table) && change.Id() in s.table
    ensures Reaches(s, s.With(p, Holding(s.table[change.Id()], change)), m)
  {
    FindIs(s.table, ById(change.Id()), change.Id());
    var s1, s2 := s.With(p, Opening(change)), s.With(p, Holding(s.table[change.Id()], change));
    Stays(s, m);
    Onwards(s, s, p, Start(Opening(change)), s1, m);
    assert s1.procs[p := s2.procs[p]] == s2.procs;
    Onwards(s, s1, p, Next(0), s2, m);
  }

  /** A lookup up to its fill: GET misses or is lost, SELECT finds the row. */
  lemma {:induction false} Looks(s: State, p: nat, k: Key, id: Uuid, m: Manner)
    requires p < |s.procs| && Ended(s.procs[p]) && TableOk(s.table) && id in s.table && Owns(s.table[id], k)
    requires k in s.cache ==> !m.Faultlessly?
    ensures var row := s.table[id];
            Reaches(s, s.With(p, Filling(row, KeyList(row), Some(k))), m)
  {
    var row := s.table[id];
    FindIs(s.table, k, id);
    var s1, s2 := s.With(p, Getting(k)), s.With(p, Selecting(k));
    Stays(s, m);
    Onwards(s, s, p, Start(Getting(k)), s1, m);
    assert s1.procs[p := Selecting(k)] == s2.procs;
    if k in s.cache {
      Further(s, s1, p, Lose, s2, m);
    } else {
      Onwards(s, s1, p, Next(0), s2, m);
    }
    var s3 := s.With(p, Filling(row, KeyList(row), Some(k)));
    assert s2.procs[p := s3.procs[p]] == s3.procs;
    Onwards(s, s2, p, Next(0), s3, m);
  }

  // ---- Whole pipelines -------------------------------------------------------------------------

  ghost predicate Keeps(todo: seq<Key>, lost: set<Key>) {
    forall k | k in todo :: k !in lost
  }

  function Overlaid(cache: map<Key, User>, todo: seq<Key>, lost: set<Key>, v: User): map<Key, User> {
    cache + map k | k in todo && k !in lost :: v
  }

  lemma OverlayStep(cache: map<Key, User>, todo: seq<Key>, lost: set<Key>, v: User)
    requires todo != []
    ensures var cache' := if todo[0] in lost then cache else cache[todo[0] := v];
            Overlaid(cache, todo, lost, v) == Overlaid(cache', todo[1..], lost, v)
  {
    assert todo == [todo[0]] + todo[1..];
  }

  /** A fill finished, some of its SETs lost. */
  ghost function FillEnd(s: State, p: nat, lost: set<Key>): State
    requires p < |s.procs| && s.procs[p].Filling?
  {
    var Filling(u, todo, asked) := s.procs[p];
    s.With(p, FillNext(u, [], if Keeps(todo, lost) then asked else None))
     .(cache := Overlaid(s.cache, todo, lost, Erase(u)))
  }

  /** A purge finished, some of its DELs lost. */
  ghost function PurgeEnd(s: State, p: nat, lost: set<Key>): State
    requires p < |s.procs| && s.procs[p].Purging?
  {
    var Purging(row, todo, again) := s.procs[p];
    s.With(p, PurgeNext(row, [], again && Keeps(todo, lost)))
     .(cache := s.cache - set k | k in todo && k !in lost)
  }

  /** The next command of a pipeline, or its loss. */
  function NextOrLose(todo: seq<Key>, lost: set<Key>): Action
    requires todo != []
  {
    if todo[0] in lost then Lose else Next(0)
  }

  lemma SplitTodo(todo: seq<Key>, lost: set<Key>)
    requires todo != []
    ensures todo == [todo[0]] + todo[1..]
    ensures Keeps(todo, lost) <==> todo[0] !in lost && Keeps(todo[1..], lost)
  {
    assert todo == [todo[0]] + todo[1..];
  }

  lemma {:induction false} FillStep(s: State, p: nat, lost: set<Key>)
    requires p < |s.procs| && s.procs[p].Filling? && s.procs[p].todo != []
    ensures var s1, todo := Apply(s, Act(p, NextOrLose(s.procs[p].todo, lost))), s.procs[p].todo;
            && s1.table == s.table
            && if |todo| == 1 then s1 == FillEnd(s, p, lost)
               else |s1.procs| == |s.procs| && s1.procs[p].Filling? && s1.procs[p].todo == todo[1..]
                    && FillEnd(s1, p, lost) == FillEnd(s, p, lost)
  {
    var Filling(u, todo, asked) := s.procs[p];
    SplitTodo(todo, lost);
    OverlayStep(s.cache, todo, lost, Erase(u));
    var s1, s2 := Apply(s, Act(p, NextOrLose(todo, lost))), FillEnd(s, p, lost);
    var cache' := if todo[0] in lost then s.cache else s.cache[todo[0] := Erase(u)];
    var asked' := if todo[0] in lost then None else asked;
    assert s1 == s.With(p, FillNext(u, todo[1..], asked')).(cache := cache');
    if |todo| == 1 {
      assert Overlaid(cache', [], lost, Erase(u)) == cache';
      assert s1 == s2;
    } else {
      assert FillEnd(s1, p, lost).procs == s2.procs;
    }
  }

  lemma {:induction false} PurgeStep(s: State, p: nat, lost: set<Key>)
    requires p < |s.procs| && s.procs[p].Purging? && s.procs[p].todo != []
    ensures var s1, todo := Apply(s, Act(p, NextOrLose(s.procs[p].todo, lost))), s.procs[p].todo;
            && s1.table == s.table && s1.cache.Keys <= s.cache.Keys
            && (forall k | k in s1.cache :: s1.cache[k] == s.cache[k])
            && if |todo| == 1 then s1 == PurgeEnd(s, p, lost)
               else |s1.procs| == |s.procs| && s1.procs[p].Purging? && s1.procs[p].todo == todo[1..]
                    && s1.procs[p].row == s.procs[p].row
                    && PurgeEnd(s1, p, lost) == PurgeEnd(s, p, lost)
  {
    var Purging(row, todo, again) := s.procs[p];
    SplitTodo(todo, lost);
    var s1, s2 := Apply(s, Act(p, NextOrLose(todo, lost))), PurgeEnd(s, p, lost);
    if |todo| == 1 {
      assert s1.procs == s2.procs && s1.cache == s2.cache;
    } else {
      assert PurgeEnd(s1, p, lost).procs == s2.procs;
      assert PurgeEnd(s1, p, lost).cache == s2.cache;
    }
  }

  lemma {:induction false} FillReaches(s: State, p: nat, lost: set<Key>, m: Manner)
    requires p < |s.procs| && s.procs[p].Filling? && s.procs[p].todo != []
    requires m.Faultlessly? ==> lost == {}
    ensures Reaches(s, FillEnd(s, p, lost), m)
    decreases |s.procs[p].todo|
  {
    var a := NextOrLose(s.procs[p].todo, lost);
    var s1 := Apply(s, Act(p, a));
    FillStep(s, p, lost);
    Quietly(s, p, a, m);
    if |s.procs[p].todo| != 1 {
      FillReaches(s1, p, lost, m);
      Then(s, s1, FillEnd(s, p, lost), m);
    }
  }

  /** Calm if the lost DELs only meet entries of other users. */
  lemma {:induction false} PurgeReaches(s: State, p: nat, lost: set<Key>, m: Manner)
    requires p < |s.procs| && s.procs[p].Purging? && s.procs[p].todo != []
    requires m.Calmly? ==> forall k | k in lost && k in s.cache :: s.cache[k].id != s.procs[p].row.id
    requires m.Faultlessly? ==> lost == {}
    ensures Reaches(s, PurgeEnd(s, p, lost), m)
    decreases |s.procs[p].todo|
  {
    var a := NextOrLose(s.procs[p].todo, lost);
    var s1 := Apply(s, Act(p, a));
    PurgeStep(s, p, lost);
    if m.Calmly? { LossIsCalm(s, p, lost); }
    Once(s, Act(p, a), m);
    if |s.procs[p].todo| != 1 {
      PurgeReaches(s1, p, lost, m);
      Then(s, s1, PurgeEnd(s, p, lost), m);
    }
  }

  lemma {:induction false} LossIsCalm(s: State, p: nat, lost: set<Key>)
    requires p < |s.procs| && s.procs[p].Purging? && s.procs[p].todo != []
    requires forall k | k in lost && k in s.cache :: s.cache[k].id != s.procs[p].row.id
    ensures s.procs[p].todo[0] in lost ==> !SpoilsPurge(s, Act(p, Lose))
  {
    var todo := s.procs[p].todo;
    if todo[0] in lost {
      forall k | k in s.cache && PurgePending(s, k, s.cache[k].id)
        ensures PurgePending(Apply(s, Act(p, Lose)), k, s.cache[k].id)
      {
        assert todo == [todo[0]] + todo[1..];
        if s.procs[p].row.id == s.cache[k].id {
          OthersStayPending(s, p, Skip(s, p).procs[p], k, s.cache[k].id);
        } else {
          StillPending(s, p, Skip(s, p).procs[p], k, s.cache[k].id);
        }
      }
    }
  }

  /** A request that purges for another id matters to no pending deletion of this one. */
  lemma StillPending(s: State, p: nat, q: Proc, k: Key, id: Uuid)
    requires p < |s.procs| && PurgePending(s, k, id)
    requires s.procs[p].Purging? && k in s.procs[p].todo ==> s.procs[p].row.id != id
    ensures PurgePending(s.With(p, q), k, id)
  {
    var i: nat :| i < |s.procs| && s.procs[i].Purging? && s.procs[i].row.id == id && k in s.procs[i].todo;
    assert s.With(p, q).procs[i] == s.procs[i];
  }

  /** Any entries may expire at any time. */
  lemma {:induction false} ExpiryReaches(s: State, ks: set<Key>, m: Manner)
    requires m.Anyhow? || m.Calmly?
    ensures Reaches(s, s.(cache := s.cache - ks), m)
    decreases ks
  {
    if ks == {} {
      assert s.cache - ks == s.cache;
      Stays(s, m);
    } else {
      var k :| k in ks;
      var s1 := Apply(s, Expire(k));
      Once(s, Expire(k), m);
      ExpiryReaches(s1, ks - {k}, m);
      assert s1.cache - (ks - {k}) == s.cache - ks;
      Then(s, s1, s.(cache := s.cache - ks), m);
    }
  }
}
