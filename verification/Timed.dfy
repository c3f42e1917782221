/** Interleavings with a clock: how old an answer can be when nothing at all is disciplined. */
module Timed {
  import opened Domain
  import opened Database
  import opened Cache
  import opened Concurrent

  /** A state at an instant: when each entry expires, and since when each request is where it is.
      A request that fills is there since it read the row. */
  datatype Moment = Moment(state: State, now: nat, deadlines: map<Key, nat>, since: seq<nat>)

  datatype Happening = Do(step: Label) | Tick(dt: nat)

  /** The key that a step sets, if it is a SET that is carried out. */
  function KeySet(s: State, l: Label): Option<Key> {
    if l.Act? && l.p < |s.procs| && l.action.Next? && s.procs[l.p].Filling? && s.procs[l.p].todo != []
    then Some(s.procs[l.p].todo[0]) else None
  }

  ghost function Done(m: Moment, l: Label, ttl: Ttl): Moment {
    var s' := Apply(m.state, l);
    var k := KeySet(m.state, l);
    Moment(s', m.now,
           if k.Some? then m.deadlines[k.value := m.now + ttl] else m.deadlines,
           if !l.Act? || |m.since| <= l.p || |m.state.procs| <= l.p || |s'.procs| <= l.p
              || Remains(m.state.procs[l.p], s'.procs[l.p])
           then m.since else m.since[l.p := m.now])
  }

  predicate Remains(q: Proc, q': Proc) {
    q == q' || (q.Filling? && q'.Filling?)
  }

  /** Time passes, and entries expire at their deadlines. */
  function Ticked(m: Moment, dt: nat): Moment {
    var s := m.state;
    var now := m.now + dt;
    m.(now := now,
       state := s.(cache := map k | k in s.cache && k in m.deadlines && now < m.deadlines[k] :: s.cache[k]))
  }

  ghost function Happen(m: Moment, h: Happening, ttl: Ttl): Moment {
    match h
    case Do(l) => Done(m, l, ttl)
    case Tick(dt) => Ticked(m, dt)
  }

  ghost function History(m: Moment, hs: seq<Happening>, ttl: Ttl): Moment
    decreases |hs|
  {
    if hs == [] then m else History(Happen(m, hs[0], ttl), hs[1..], ttl)
  }

  /** Every row version and every instant at which the table held it. */
  ghost function Held(m: Moment, hs: seq<Happening>, ttl: Ttl): set<(User, nat)>
    decreases |hs|
  {
    Rows(m) + if hs == [] then {} else Held(Happen(m, hs[0], ttl), hs[1..], ttl)
  }

  function Rows(m: Moment): set<(User, nat)> {
    set id | id in m.state.table :: (Erase(m.state.table[id]), m.now)
  }

  /** No SET is carried out later than this long after its fill read the row. */
  ghost predicate Prompt(m: Moment, hs: seq<Happening>, ttl: Ttl, window: nat)
    decreases |hs|
  {
    hs != [] ==>
      && (hs[0].Do? && KeySet(m.state, hs[0].step).Some? && hs[0].step.p < |m.since| ==>
            m.now <= m.since[hs[0].step.p] + window)
      && Prompt(Happen(m, hs[0], ttl), hs[1..], ttl, window)
  }

  /** The version was in the table at some instant from the one to the other. */
  ghost predicate HeldIn(held: set<(User, nat)>, u: User, from: int, until: nat) {
    exists t :: (Erase(u), t) in held && from <= t <= until
  }

  ghost predicate ProcAge(held: set<(User, nat)>, q: Proc, since: nat, age: nat) {
    && (q.Filling? ==> HeldIn(held, q.user, since, since))
    && (q.Answered? ==> HeldIn(held, q.user, since + 1 - age, since))
  }

  /** What the cache holds, what is on its way there, and what was answered, is not older than age. */
  ghost predicate Ages(m: Moment, held: set<(User, nat)>, ttl: Ttl, window: nat) {
    && Rows(m) <= held
    && |m.since| == |m.state.procs|
    && (forall p: nat | p < |m.since| :: m.since[p] <= m.now)
    && (forall k | k in m.state.cache ::
          && k in m.deadlines && m.now < m.deadlines[k]
          && HeldIn(held, m.state.cache[k], m.deadlines[k] - ttl - window, m.now))
    && (forall p: nat | p < |m.since| :: ProcAge(held, m.state.procs[p], m.since[p], ttl + window))
  }

  // ---- What one step can bring about ---------------------------------------------------------------

  /** Entries come from SETs, fills from rows that are there, answers from hits and finished fills. */
  lemma {:induction false} EntriesComeFromFills(s: State, l: Label)
    ensures var s' := Apply(s, l);
            forall k | k in s'.cache ::
              if KeySet(s, l) == Some(k) then s'.cache[k] == Erase(s.procs[l.p].user)
              else k in s.cache && s'.cache[k] == s.cache[k]
  {
  }

  lemma {:induction false} FillsComeFromRows(s: State, p: nat, a: Action)
    requires p < |s.procs|
    ensures var s' := Apply(s, Act(p, a));
            |s'.procs| == |s.procs| &&
            var q, q' := s.procs[p], s'.procs[p];
            q'.Filling? ==>
              (q.Filling? && q'.user == q.user) || q'.user in s'.table.Values
  {
    if a.Next? && s.procs[p].Inserting? {
      var u := s.procs[p].user;
      var s' := Apply(s, Act(p, a));
      assert s'.procs[p].Filling? ==> s'.table[u.id] == u;
    }
  }

  lemma {:induction false} AnswersComeFromFills(s: State, p: nat, a: Action)
    requires p < |s.procs|
    ensures var s' := Apply(s, Act(p, a));
            |s'.procs| == |s.procs| &&
            var q, q' := s.procs[p], s'.procs[p];
            q'.Answered? && q' != q ==>
              || (q.Getting? && q.key in s.cache && q'.user == s.cache[q.key])
              || (q.Filling? && q'.user == q.user && KeySet(s, Act(p, a)).Some?)
  {
    if a.Next? {
      StatementsNeverAnswer(s, p, a.now);
    }
  }

  /** Only a GET and the last SET of a lookup answer. */
  lemma {:induction false} StatementsNeverAnswer(s: State, p: nat, now: int)
    requires p < |s.procs|
    ensures var q, s' := s.procs[p], Perform(s, p, now);
            |s'.procs| == |s.procs| &&
            (s'.procs[p].Answered? ==> q.Answered? || q.Getting? || q.Filling?)
  {
    match s.procs[p]
    case Selecting(k) => ReadsDoNotAnswer(s, p, k, u => FillNext(u, KeyList(u), Some(k)));
    case Opening(change) => ReadsDoNotAnswer(s, p, ById(change.Id()), u => Holding(u, change));
    case Rereading(id) => ReadsDoNotAnswer(s, p, ById(id), u => FillNext(u, KeyList(u), None));
    case _ =>
  }

  lemma ReadsDoNotAnswer(s: State, p: nat, k: Key, found: User -> Proc)
    requires p < |s.procs| && forall u :: !found(u).Answered?
    ensures |ReadRow(s, p, k, found).procs| == |s.procs| && !ReadRow(s, p, k, found).procs[p].Answered?
  {
  }

  /** What a SET leaves lives for exactly a ttl if nobody touches it. */
  lemma {:induction false} SetLivesExactly(m: Moment, l: Label, ttl: Ttl, dt: nat)
    requires KeySet(m.state, l).Some?
    ensures var k, m' := KeySet(m.state, l).value, Happen(Happen(m, Do(l), ttl), Tick(dt), ttl);
            && (k in m'.state.cache <==> dt < ttl)
            && (dt < ttl ==> m'.state.cache[k] == Erase(m.state.procs[l.p].user))
  {
  }

  // ---- Ages are kept -----------------------------------------------------------------------------

  lemma HeldGrows(held: set<(User, nat)>, held': set<(User, nat)>, u: User, from: int, until: nat, until': nat)
    requires held <= held' && HeldIn(held, u, from, until) && until <= until'
    ensures HeldIn(held', u, from, until')
  {
  }

  lemma {:induction false} StepKeepsAges(m: Moment, l: Label, held: set<(User, nat)>, ttl: Ttl, window: nat)
    requires Ages(m, held, ttl, window) && Prompt(m, [Do(l)], ttl, window)
    ensures var m' := Done(m, l, ttl); Ages(m', held + Rows(m'), ttl, window)
  {
    var m' := Done(m, l, ttl);
    var held' := held + Rows(m');
    OthersStandStill(m.state, l);
    forall k | k in m'.state.cache
      ensures k in m'.deadlines && m'.now < m'.deadlines[k]
      ensures HeldIn(held', m'.state.cache[k], m'.deadlines[k] - ttl - window, m'.now)
    {
      EntryKeepsAge(m, l, k, held, held', ttl, window);
    }
    forall p: nat | p < |m'.since|
      ensures ProcAge(held', m'.state.procs[p], m'.since[p], ttl + window)
    {
      assert ProcAge(held, m.state.procs[p], m.since[p], ttl + window);
      if l.Act? && p == l.p && m'.state.procs[p] != m.state.procs[p] {
        ActorKeepsAge(m, p, l.action, held, ttl, window);
      } else {
        assert m'.since[p] == m.since[p];
        ProcAgeGrows(held, held', m.state.procs[p], m.since[p], ttl + window);
      }
    }
  }

  lemma ProcAgeGrows(held: set<(User, nat)>, held': set<(User, nat)>, q: Proc, since: nat, age: nat)
    requires held <= held' && ProcAge(held, q, since, age)
    ensures ProcAge(held', q, since, age)
  {
  }

  lemma {:induction false} EntryKeepsAge(m: Moment, l: Label, k: Key, held: set<(User, nat)>, held': set<(User, nat)>,
                                         ttl: Ttl, window: nat)
    requires Ages(m, held, ttl, window) && Prompt(m, [Do(l)], ttl, window) && held <= held'
    requires k in Done(m, l, ttl).state.cache
    ensures var m' := Done(m, l, ttl);
            && k in m'.deadlines && m'.now < m'.deadlines[k]
            && HeldIn(held', m'.state.cache[k], m'.deadlines[k] - ttl - window, m'.now)
  {
    EntriesComeFromFills(m.state, l);
    var m' := Done(m, l, ttl);
    if KeySet(m.state, l) == Some(k) {
      assert ProcAge(held, m.state.procs[l.p], m.since[l.p], ttl + window);
      var u := m.state.procs[l.p].user;
      var t :| (Erase(u), t) in held && m.since[l.p] <= t <= m.since[l.p];
      assert Erase(m'.state.cache[k]) == Erase(u);
    } else {
      HeldGrows(held, held', m.state.cache[k], m.deadlines[k] - ttl - window, m.now, m'.now);
    }
  }

  lemma {:induction false} ActorKeepsAge(m: Moment, p: nat, a: Action, held: set<(User, nat)>, ttl: Ttl, window: nat)
    requires Ages(m, held, ttl, window) && Prompt(m, [Do(Act(p, a))], ttl, window)
    requires p < |m.since| && |Done(m, Act(p, a), ttl).state.procs| == |m.state.procs|
    requires Done(m, Act(p, a), ttl).state.procs[p] != m.state.procs[p]
    ensures var m' := Done(m, Act(p, a), ttl);
            ProcAge(held + Rows(m'), m'.state.procs[p], m'.since[p], ttl + window)
  {
    var m' := Done(m, Act(p, a), ttl);
    var held' := held + Rows(m');
    var q, q' := m.state.procs[p], m'.state.procs[p];
    assert ProcAge(held, q, m.since[p], ttl + window);
    FillsComeFromRows(m.state, p, a);
    AnswersComeFromFills(m.state, p, a);
    if q'.Filling? {
      if q.Filling? && q'.user == q.user {
        HeldGrows(held, held', q.user, m.since[p], m.since[p], m.since[p]);
      } else {
        var id :| id in m'.state.table && m'.state.table[id] == q'.user;
        assert (Erase(q'.user), m'.now) in Rows(m');
      }
    } else if q'.Answered? {
      if q.Getting? {
        var t :| (Erase(q'.user), t) in held && m.deadlines[q.key] - ttl - window <= t <= m.now;
        assert (Erase(q'.user), t) in held';
      } else {
        var t :| (Erase(q.user), t) in held && m.since[p] <= t <= m.since[p];
        assert (Erase(q'.user), t) in held';
      }
    }
  }

  lemma {:induction false} TickKeepsAges(m: Moment, dt: nat, held: set<(User, nat)>, ttl: Ttl, window: nat)
    requires Ages(m, held, ttl, window)
    ensures var m' := Ticked(m, dt); Ages(m', held + Rows(m'), ttl, window)
  {
    var m' := Ticked(m, dt);
    var held' := held + Rows(m');
    forall k | k in m'.state.cache
      ensures HeldIn(held', m'.state.cache[k], m'.deadlines[k] - ttl - window, m'.now)
    {
      HeldGrows(held, held', m.state.cache[k], m.deadlines[k] - ttl - window, m.now, m'.now);
    }
    forall p: nat | p < |m'.since|
      ensures ProcAge(held', m'.state.procs[p], m'.since[p], ttl + window)
    {
      ProcAgeGrows(held, held', m.state.procs[p], m.since[p], ttl + window);
    }
  }

  lemma {:induction false} RunKeepsAges(m: Moment, hs: seq<Happening>, held: set<(User, nat)>, ttl: Ttl, window: nat)
    requires Ages(m, held, ttl, window) && Prompt(m, hs, ttl, window)
    ensures Ages(History(m, hs, ttl), held + Held(m, hs, ttl), ttl, window)
    decreases |hs|
  {
    if hs == [] {
      assert held + Held(m, hs, ttl) == held;
    } else {
      var m' := Happen(m, hs[0], ttl);
      assert Prompt(m, [hs[0]], ttl, window);
      match hs[0] {
        case Do(l) => StepKeepsAges(m, l, held, ttl, window);
        case Tick(dt) => TickKeepsAges(m, dt, held, ttl, window);
      }
      RunKeepsAges(m', hs[1..], held + Rows(m'), ttl, window);
      assert held + Rows(m') + Held(m', hs[1..], ttl) == held + Held(m, hs, ttl);
    }
  }

  /** A window as long as the run is long enough. */
  lemma {:induction false} EveryRunIsPrompt(m: Moment, hs: seq<Happening>, ttl: Ttl, window: nat)
    requires History(m, hs, ttl).now <= window
    ensures m.now <= window && Prompt(m, hs, ttl, window)
    decreases |hs|
  {
    if hs != [] {
      EveryRunIsPrompt(Happen(m, hs[0], ttl), hs[1..], ttl, window);
    }
  }

  /** In all interleavings and with any faults, intrusions and lost deletions included: if no SET comes
      later than a window after its fill read the row, every entry is a version that the table held
      less than window plus ttl ago, and every answer was one when it was given. */
  lemma {:induction false} BoundedStaleness(t: Table, n: nat, hs: seq<Happening>, ttl: Ttl, window: nat)
    requires Prompt(Moment(State(t, map[], seq(n, _ => Idle)), 0, map[], seq(n, _ => 0)), hs, ttl, window)
    ensures var m0 := Moment(State(t, map[], seq(n, _ => Idle)), 0, map[], seq(n, _ => 0));
            var m, held := History(m0, hs, ttl), Held(m0, hs, ttl);
            && |m.since| == |m.state.procs|
            && (forall k | k in m.state.cache :: HeldIn(held, m.state.cache[k], m.now + 1 - window - ttl, m.now))
            && forall p: nat | p < |m.since| && m.state.procs[p].Answered? ::
                 HeldIn(held, m.state.procs[p].user, m.since[p] + 1 - window - ttl, m.since[p])
  {
    var m0 := Moment(State(t, map[], seq(n, _ => Idle)), 0, map[], seq(n, _ => 0));
    var m, held := History(m0, hs, ttl), Held(m0, hs, ttl);
    RunKeepsAges(m0, hs, Rows(m0), ttl, window);
    assert Rows(m0) + held == held;
    forall k | k in m.state.cache ensures HeldIn(held, m.state.cache[k], m.now + 1 - window - ttl, m.now) {
      var t :| (Erase(m.state.cache[k]), t) in held && m.deadlines[k] - ttl - window <= t <= m.now;
      assert m.now < m.deadlines[k];
    }
    forall p: nat | p < |m.since| && m.state.procs[p].Answered?
      ensures HeldIn(held, m.state.procs[p].user, m.since[p] + 1 - window - ttl, m.since[p])
    {
      assert ProcAge(held, m.state.procs[p], m.since[p], ttl + window);
    }
  }
}
