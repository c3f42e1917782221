/** Staleness over whole runs: only a reported failure to invalidate can cause it, and a ttl cures it. */
module Healing {
  import opened Domain
  import opened Database
  import opened Cache
  import opened Service

  /** When the last failed invalidation of the run was reported. */
  ghost function LastFailure(s: Sys, cs: seq<Call>, ttl: Ttl): (t: Option<nat>)
    decreases |cs|
  {
    if cs == [] then None else
    var (s', r) := Step(Cached(ttl), s, cs[0]);
    var later := LastFailure(s', cs[1..], ttl);
    if later.None? && r == Failed(ErrInvalidate) then Some(s'.store.clock) else later
  }

  /** Over every run, with any faults: each entry matches the table, or expires no later than one
      ttl after the last failed invalidation. */
  lemma {:induction false} SelfHealing(s: Sys, cs: seq<Call>, ttl: Ttl, h: nat)
    requires Heals(s.store, ttl, h)
    ensures var last := LastFailure(s, cs, ttl);
            Heals(Run(Cached(ttl), s, cs).store, ttl, if last.Some? then last.value + ttl else h)
    decreases |cs|
  {
    if cs != [] {
      var (s', r) := Step(Cached(ttl), s, cs[0]);
      StepHeals(s, cs[0], ttl, h);
      SelfHealing(s', cs[1..], ttl, StepHorizon(r, s'.store, ttl, h));
    }
  }

  /** Lost fills, failed GETs, failed statements and failed re-reads never make the cache wrong. */
  lemma {:induction false} OnlyFailedInvalidationsHurt(s: Sys, cs: seq<Call>, ttl: Ttl)
    requires Sound(s.store, ttl) && Coherent(s.store)
    requires forall r | r in Responses(Cached(ttl), s, cs) :: r != Failed(ErrInvalidate)
    ensures Coherent(Run(Cached(ttl), s, cs).store)
  {
    NoFailureReported(s, cs, ttl);
    SelfHealing(s, cs, ttl, 0);
  }

  lemma {:induction false} NoFailureReported(s: Sys, cs: seq<Call>, ttl: Ttl)
    ensures LastFailure(s, cs, ttl).None? <==>
            Failed(ErrInvalidate) !in Responses(Cached(ttl), s, cs)
    decreases |cs|
  {
    if cs != [] {
      var (s', r) := Step(Cached(ttl), s, cs[0]);
      NoFailureReported(s', cs[1..], ttl);
      assert Responses(Cached(ttl), s, cs) == [r] + Responses(Cached(ttl), s', cs[1..]);
    }
  }

  /** Once a ttl has passed since the last failed invalidation, every hit is the table's own answer. */
  lemma {:induction false} HitsAreCurrentAgain(s: Sys, cs: seq<Call>, ttl: Ttl, k: Key)
    requires Sound(s.store, ttl) && Coherent(s.store)
    requires var last := LastFailure(s, cs, ttl);
             last.Some? ==> last.value + ttl <= Run(Cached(ttl), s, cs).store.clock
    ensures var st := Run(Cached(ttl), s, cs).store;
            Peek(st, k).Some? ==>
              Find(st.table, k).Some? && Peek(st, k).value == Erase(Find(st.table, k).value)
  {
    SelfHealing(s, cs, ttl, 0);
    var st := Run(Cached(ttl), s, cs).store;
    if Peek(st, k).Some? {
      FindIs(st.table, k, Peek(st, k).value.id);
    }
  }

  /** What a failed invalidation leaves behind: the cached keys of the old row whose DEL was lost. */
  function Leftovers(s: Store, row: User, o: Pipe): set<Key> {
    s.cache.Keys * KeysOf(row) * o.Lost()
  }

  /** A committed update with a failed invalidation spoils a coherent cache exactly when some cached
      key of the old row outlives it and the row changed outside its password. */
  lemma FailedPurgeOfUpdateExactly(s: Store, u: User, now: int, ttl: Ttl, o: Write)
    requires Sound(s, ttl) && Coherent(s) && u.id in s.table
    requires UpdateRow(s.table, u, now, o.execFails).Ok? && !o.oldFails && o.purge.failed
    ensures var row := s.table[u.id];
            Coherent(Change(Cached(ttl), s, u, now, o).0) <==>
            Leftovers(s, row, o.purge) == {} || Erase(Rewritten(row, u, now)) == Erase(row)
  {
    var row := s.table[u.id];
    FindIs(s.table, ById(u.id), u.id);
    var s' := Change(Cached(ttl), s, u, now, o).0;
    assert s'.cache.Keys == s.cache.Keys - (KeysOf(row) - o.purge.Lost());
    OwnedEntriesBelong(s, row, ttl);
    if k :| k in Leftovers(s, row, o.purge) {
      assert k in s'.cache && s'.cache[k].user == Erase(row);
    } else {
      forall k | k in s'.cache ensures k !in KeysOf(row) {
        assert k !in Leftovers(s, row, o.purge);
      }
    }
  }

  lemma FailedPurgeOfDeleteExactly(s: Store, id: Uuid, ttl: Ttl, o: Write)
    requires Sound(s, ttl) && Coherent(s) && id in s.table
    requires !o.oldFails && !o.execFails && o.purge.failed
    ensures Coherent(Remove(Cached(ttl), s, id, o).0) <==> Leftovers(s, s.table[id], o.purge) == {}
  {
    var row := s.table[id];
    FindIs(s.table, ById(id), id);
    var s' := Remove(Cached(ttl), s, id, o).0;
    assert s'.cache.Keys == s.cache.Keys - (KeysOf(row) - o.purge.Lost());
    OwnedEntriesBelong(s, row, ttl);
    if k :| k in Leftovers(s, row, o.purge) {
      assert k in s'.cache && s'.cache[k].user == Erase(row);
    } else {
      forall k | k in s'.cache ensures k !in KeysOf(row) {
        assert k !in Leftovers(s, row, o.purge);
      }
    }
  }

  /** In a coherent cache the entries under a row's keys are copies of that row, and only they are. */
  lemma OwnedEntriesBelong(s: Store, row: User, ttl: Ttl)
    requires Sound(s, ttl) && Coherent(s) && row.id in s.table && s.table[row.id] == row
    ensures forall k | k in s.cache :: k in KeysOf(row) <==> s.cache[k].user.id == row.id
    ensures forall k | k in s.cache && k in KeysOf(row) :: s.cache[k].user == Erase(row)
  {
  }
}
