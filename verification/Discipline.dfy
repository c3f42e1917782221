/** Exactly which interleavings put the cache in danger. */
module Discipline {
  import opened Domain
  import opened Database
  import opened Cache
  import opened Concurrent
  import opened Reach

  /** Every request has ended, and some entry is not the present row. */
  ghost predicate LeftStale(s: State) {
    && (forall i: nat | i < |s.procs| :: Ended(s.procs[i]))
    && exists k :: k in s.cache && !Current(s.table, s.cache[k])
  }

  /** Orderly steps can still end with a stale entry that nobody is going to delete. */
  ghost predicate Doomed(s: State) {
    exists s' :: Reaches(s, s', Calmly) && LeftStale(s')
  }

  lemma {:induction false} DoomedBefore(s: State, s1: State)
    requires Reaches(s, s1, Calmly) && Doomed(s1)
    ensures Doomed(s)
  {
    var s2 :| Reaches(s1, s2, Calmly) && LeftStale(s2);
    Then(s, s1, s2, Calmly);
  }

  // ---- Letting requests end ----------------------------------------------------------------------

  /** The entry waits for no deletion by a writer of its id. */
  predicate Left(s: State, k: Key) {
    k in s.cache && !PurgePending(s, k, s.cache[k].id)
  }

  /** The table is as before, and so are the entries that waited for no deletion. */
  ghost predicate Settled(s: State, s': State) {
    s'.table == s.table && forall k | Left(s, k) :: Left(s', k) && s'.cache[k] == s.cache[k]
  }

  /** Any request can be brought to its end without disorder. */
  lemma {:induction false} EndOne(s: State, p: nat) returns (s': State)
    requires p < |s.procs|
    ensures Reaches(s, s', Calmly) && Settled(s, s') && s'.procs == s.procs[p := Idle]
  {
    var s1 := s;
    Stays(s, Calmly);
    if s.procs[p].Purging? && s.procs[p].todo != [] {
      var foreign := set k | k in s.cache && s.cache[k].id != s.procs[p].row.id;
      PurgeReaches(s, p, foreign, Calmly);
      s1 := PurgeEnd(s, p, foreign);
    }
    s' := s1.With(p, Idle);
    EndingIsCalm(s1, p);
    Once(s1, Act(p, Abort), Calmly);
    Then(s, s1, s', Calmly);
    forall k | Left(s, k) ensures Left(s', k) && s'.cache[k] == s.cache[k] {
      NothingNewPending(s, s', p, k, s.cache[k].id);
      assert s.procs[p].Purging? && k in s.procs[p].todo ==> s.procs[p].row.id != s.cache[k].id;
    }
  }

  lemma NothingNewPending(s: State, s': State, p: nat, k: Key, id: Uuid)
    requires p < |s.procs| && s'.procs == s.procs[p := Idle]
    ensures PurgePending(s', k, id) ==> PurgePending(s, k, id)
  {
    if PurgePending(s', k, id) {
      var i: nat :| i < |s'.procs| && s'.procs[i].Purging? && s'.procs[i].row.id == id && k in s'.procs[i].todo;
      assert s.procs[i] == s'.procs[i];
    }
  }

  lemma EndingIsCalm(s: State, p: nat)
    requires p < |s.procs| && (s.procs[p].Purging? ==> s.procs[p].todo == [])
    ensures !Intrudes(s, Act(p, Abort)) && !SpoilsPurge(s, Act(p, Abort))
  {
    AllStayPending(s, p, Idle);
  }

  /** The first n requests, all but v, brought to their end. */
  lemma {:induction false} EndAll(s: State, n: nat, v: nat) returns (s': State)
    requires n <= |s.procs|
    ensures Reaches(s, s', Calmly) && Settled(s, s') && |s'.procs| == |s.procs|
    ensures forall i: nat | i < |s.procs| :: s'.procs[i] == if i < n && i != v then Idle else s.procs[i]
    decreases n
  {
    if n == 0 {
      Stays(s, Calmly);
      return s;
    }
    s' := EndAll(s, n - 1, v);
    if n - 1 != v {
      var s1 := s';
      s' := EndOne(s1, n - 1);
      Then(s, s1, s', Calmly);
    }
  }

  // ---- A stale entry that no writer will delete -----------------------------------------------------

  lemma {:induction false} LeftBehind(s: State, k: Key)
    requires Left(s, k) && !Current(s.table, s.cache[k])
    ensures Doomed(s)
  {
    var s' := EndAll(s, |s.procs|, |s.procs|);
    assert Left(s', k);
  }

  /** A lost deletion that matters leaves its entry behind. */
  lemma {:induction false} SpoiltPurgeSpoils(s: State, l: Label)
    requires SpoilsPurge(s, l)
    ensures Doomed(Apply(s, l))
  {
    var k :| k in s.cache && !Current(s.table, s.cache[k]) && !PurgePending(Apply(s, l), k, s.cache[k].id);
    LeftBehind(Apply(s, l), k);
  }

  /** A step by a request touches no other request; one that unfits another is by a request there is. */
  lemma {:induction false} OthersWait(s: State, l: Label, q: nat)
    requires l.Act? && q < |s.procs| && q != l.p && ProcOk(s.table, s.procs[q])
    ensures var s1 := Apply(s, l);
            && |s1.procs| == |s.procs| && s1.procs[q] == s.procs[q]
            && (!Fits(s1.table, s.procs[q]) ==> l.p < |s.procs| && Intrudes(s, l))
  {
    OthersStandStill(s, l);
  }

  // ---- A fill that sets a row no longer there --------------------------------------------------------

  lemma {:induction false} LateFill(s: State, v: nat)
    requires v < |s.procs| && !Fits(s.table, s.procs[v]) && s.procs[v].Filling?
    requires forall i: nat | i < |s.procs| && i != v :: Ended(s.procs[i])
    ensures Doomed(s)
  {
    var k := s.procs[v].todo[0];
    var s1 := Apply(s, Act(v, Next(0)));
    Quietly(s, v, Next(0), Calmly);
    assert Left(s1, k) && !Current(s1.table, s1.cache[k]);
    LeftBehind(s1, k);
    DoomedBefore(s, s1);
  }

  /** A write that makes a fill outdated: others end, and then the fill sets its first key. */
  lemma {:induction false} IntrusionSpoils(s: State, l: Label, q: nat)
    requires Inv(s) && l.Act? && q < |s.procs| && q != l.p && s.procs[q].Filling?
    requires !Fits(Apply(s, l).table, s.procs[q])
    ensures Intrudes(s, l) && Doomed(Apply(s, l))
  {
    assert ProcOk(s.table, s.procs[q]);
    OthersWait(s, l, q);
    var s1 := Apply(s, l);
    var s2 := EndAll(s1, |s1.procs|, q);
    LateFill(s2, q);
    DoomedBefore(s1, s2);
  }

  // ---- A writer whose row lacks a key of the present row ------------------------------------------------

  /** Only the writer v is under way, and it will not purge every key of the present row. */
  ghost predicate Lurking(s: State, v: nat) {
    && TableOk(s.table) && v < |s.procs| && s.procs[v].Holding? && Shaped(s.procs[v])
    && !Fits(s.table, s.procs[v])
    && forall i: nat | i < |s.procs| && i != v :: Ended(s.procs[i])
  }

  /** Somebody else deletes another user. */
  lemma {:induction false} Removes(s: State, v: nat, p: nat, id: Uuid) returns (s': State)
    requires Lurking(s, v) && p < |s.procs| && p != v && id in s.table && id != s.procs[v].row.id
    ensures Reaches(s, s', Calmly) && Lurking(s', v) && s'.procs == s.procs[p := Idle]
    ensures s'.table == s.table - {id}
  {
    var s1 := s.With(p, Holding(s.table[id], Drop(id)));
    Opens(s, p, Drop(id), Calmly);
    var s2 := Deletes(s1, v, p);
    Then(s, s1, s2, Calmly);
    s' := EndOne(s2, p);
    Then(s, s2, s', Calmly);
    StillLurking(s, s', v, id);
  }

  lemma StillLurking(s: State, s': State, v: nat, id: Uuid)
    requires Lurking(s, v) && id != s.procs[v].row.id && s'.table == s.table - {id}
    requires |s'.procs| == |s.procs| && s'.procs[v] == s.procs[v]
    requires forall i: nat | i < |s.procs| && i != v :: Ended(s'.procs[i])
    ensures Lurking(s', v)
  {
  }

  /** A DELETE of another user intrudes on nobody. */
  lemma {:induction false} Deletes(s: State, v: nat, p: nat) returns (s': State)
    requires p < |s.procs| && v < |s.procs| && p != v && TableOk(s.table)
    requires s.procs[p].Holding? && s.procs[p].change == Drop(s.procs[p].row.id) && s.procs[p].row.id in s.table
    requires !Fits(s.table, s.procs[v])
    requires forall i: nat | i < |s.procs| && i != v && i != p :: Ended(s.procs[i])
    ensures Reaches(s, s', Calmly) && s'.table == s.table - {s.procs[p].row.id}
    ensures |s'.procs| == |s.procs| && forall i: nat | i < |s.procs| && i != p :: s'.procs[i] == s.procs[i]
  {
    s' := Perform(s, p, 0);
    Once(s, Act(p, Next(0)), Calmly);
  }

  /** The rows that would refuse the writer's UPDATE can be deleted first. */
  lemma {:induction false} ClearsTheWay(s: State, v: nat, p: nat) returns (s': State)
    requires Lurking(s, v) && p < |s.procs| && p != v && s.procs[v].change.Put?
    ensures Reaches(s, s', Calmly) && Lurking(s', v) && |s'.procs| == |s.procs| && s'.procs[v] == s.procs[v]
    ensures !NicknameClash(s'.table, s.procs[v].change.user) && !EmailClash(s'.table, s.procs[v].change.user)
  {
    var u := s.procs[v].change.user;
    Stays(s, Calmly);
    s' := s;
    if NicknameClash(s.table, u) {
      var id :| id in s.table && id != u.id && s.table[id].nickname == u.nickname;
      s' := Removes(s, v, p, id);
    }
    assert !NicknameClash(s'.table, u);
    if EmailClash(s'.table, u) {
      var s1 := s';
      var id :| id in s1.table && id != u.id && s1.table[id].email == u.email;
      s' := Removes(s1, v, p, id);
      Then(s, s1, s', Calmly);
    }
  }

  /** A lookup that misses puts the present row under a key that the writer does not know. */
  lemma {:induction false} LooksUp(s: State, v: nat, p: nat, k: Key) returns (s': State)
    requires Lurking(s, v) && p < |s.procs| && p != v && Owns(s.table[s.procs[v].row.id], k)
    ensures Reaches(s, s', Calmly) && Lurking(s', v) && s'.table == s.table
    ensures |s'.procs| == |s.procs| && s'.procs[v] == s.procs[v]
    ensures k in s'.cache && s'.cache[k] == Erase(s.table[s.procs[v].row.id])
  {
    var u := s.table[s.procs[v].row.id];
    var s1 := s.With(p, Filling(u, KeyList(u), Some(k)));
    Looks(s, p, k, u.id, Calmly);
    FillReaches(s1, p, {}, Calmly);
    s' := FillEnd(s1, p, {});
    Then(s, s1, s', Calmly);
  }

  /** Then the writer commits, and purges the keys it knows. */
  lemma {:induction false} LateWriter(s: State, v: nat, k: Key, now: int)
    requires Lurking(s, v) && k !in KeysOf(s.procs[v].row)
    requires k in s.cache && s.cache[k] == Erase(s.table[s.procs[v].row.id])
    requires Commit(s.table, s.procs[v].change, now).Ok? && now != s.table[s.procs[v].row.id].updatedAt
    ensures Doomed(s)
  {
    var s1 := Apply(s, Act(v, Next(now)));
    Once(s, Act(v, Next(now)), Calmly);
    assert !Current(s1.table, s.cache[k]);
    PurgeMisses(s1, v, k);
    DoomedBefore(s, s1);
  }

  /** A purge that does not name a stale key leaves it behind. */
  lemma {:induction false} PurgeMisses(s: State, v: nat, k: Key)
    requires v < |s.procs| && s.procs[v].Purging? && s.procs[v].todo == KeyList(s.procs[v].row)
    requires forall i: nat | i < |s.procs| && i != v :: Ended(s.procs[i])
    requires k in s.cache && k !in KeysOf(s.procs[v].row) && !Current(s.table, s.cache[k])
    ensures Doomed(s)
  {
    assert !PurgePending(s, k, s.cache[k].id);
    LeftBehind(s, k);
  }

  lemma {:induction false} LurkingSpoils(s: State, v: nat, p: nat)
    requires Lurking(s, v) && p < |s.procs| && p != v
    ensures Doomed(s)
  {
    var q := s.procs[v];
    var s1 := s;
    Stays(s, Calmly);
    if q.change.Put? {
      s1 := ClearsTheWay(s, v, p);
    }
    var u := s1.table[q.row.id];
    var k :| k in KeysOf(u) && k !in KeysOf(q.row);
    var s2 := LooksUp(s1, v, p, k);
    LateWriter(s2, v, k, u.updatedAt + 1);
    Then(s, s1, s2, Calmly);
    DoomedBefore(s, s2);
  }

  /** A write that renames the row under another writer, whatever that writer is about to do with it:
      the late writer purges the keys of a row that is no longer the old one. */
  lemma {:induction false} OverlappingUpdatesSpoil(s: State, l: Label, q: nat)
    requires Inv(s) && l.Act? && q < |s.procs| && q != l.p && s.procs[q].Holding?
    requires !Fits(Apply(s, l).table, s.procs[q])
    ensures Intrudes(s, l) && Doomed(Apply(s, l))
  {
    assert ProcOk(s.table, s.procs[q]);
    OthersWait(s, l, q);
    StepKeepsTableOk(s, l);
    var s1 := Apply(s, l);
    var s2 := EndAll(s1, |s1.procs|, q);
    assert Lurking(s2, q);
    LurkingSpoils(s2, q, l.p);
    DoomedBefore(s1, s2);
  }

  // ---- Exactly -----------------------------------------------------------------------------------

  lemma {:induction false} InvIsSafe(s: State)
    requires Inv(s)
    ensures !Doomed(s)
  {
    if Doomed(s) {
      var s' :| Reaches(s, s', Calmly) && LeftStale(s');
      var ls :| Run(s, ls) == s' && Orderly(s, ls);
      ConcurrentCoherence(s, ls);
    }
  }

  /** One step, whatever it is: it puts the cache in danger exactly when it intrudes or spoils. */
  lemma {:induction false} HarmExactly(s: State, l: Label)
    requires Inv(s)
    ensures Intrudes(s, l) || SpoilsPurge(s, l) <==> Doomed(Apply(s, l))
  {
    if SpoilsPurge(s, l) {
      SpoiltPurgeSpoils(s, l);
    } else if Intrudes(s, l) {
      var q: nat :| q < |s.procs| && q != l.p && Fits(s.table, s.procs[q]) && !Fits(Apply(s, l).table, s.procs[q]);
      if s.procs[q].Filling? {
        IntrusionSpoils(s, l, q);
      } else {
        OverlappingUpdatesSpoil(s, l, q);
      }
    } else {
      StepKeepsInv(s, l);
      InvIsSafe(Apply(s, l));
    }
  }

  /** A run is orderly exactly when the cache was never in danger: at no moment could orderly steps
      have ended with a stale entry. */
  lemma {:induction false} OrderlyExactly(s: State, ls: seq<Label>)
    requires Inv(s)
    ensures Orderly(s, ls) <==> forall i: nat | i <= |ls| :: !Doomed(Run(s, ls[..i]))
    decreases |ls|
  {
    InvIsSafe(s);
    if ls == [] {
      assert forall i: nat | i <= |ls| :: Run(s, ls[..i]) == s;
    } else {
      var s1 := Apply(s, ls[0]);
      HarmExactly(s, ls[0]);
      assert forall i: nat | i < |ls| :: Run(s, ls[..i + 1]) == Run(s1, ls[1..][..i]) by {
        forall i: nat | i < |ls| ensures Run(s, ls[..i + 1]) == Run(s1, ls[1..][..i]) {
          assert ls[..i + 1][0] == ls[0] && ls[..i + 1][1..] == ls[1..][..i];
        }
      }
      if !Doomed(s1) {
        StepKeepsInv(s, ls[0]);
        OrderlyExactly(s1, ls[1..]);
        assert forall i: nat | 0 < i <= |ls| :: i - 1 <= |ls[1..]| && Run(s, ls[..i]) == Run(s1, ls[1..][..i - 1]);
      } else {
        assert Run(s1, ls[1..][..0]) == s1;
        assert Run(s, ls[..0 + 1]) == s1;
      }
    }
  }
}
