/** Lists bypass the cache, yet what an update through the cache erased does not show in them. */
module ListTransparency {
  import opened Domain
  import opened Database
  import opened Sql
  import opened Listing
  import opened Transparency

  /** The same rows as they stand in the other table. */
  function Counterparts(us: seq<User>, t: Table): (r: seq<User>)
    ensures |r| == |us|
    ensures forall i | 0 <= i < |us| :: r[i] == if us[i].id in t then t[us[i].id] else us[i]
  {
    seq(|us|, i requires 0 <= i < |us| => if us[i].id in t then t[us[i].id] else us[i])
  }

  /** Nothing a list looks at depends on the password. */
  ghost predicate SameCells(u: User, v: User) {
    && (forall column | column in ALLOWED :: TextOf(u, column) == TextOf(v, column))
    && (forall orderBy :: CellOf(u, OrderColumn(orderBy)) == CellOf(v, OrderColumn(orderBy)))
  }

  lemma ErasedSameCells(u: User, v: User)
    requires Erase(u) == Erase(v)
    ensures SameCells(u, v)
  {
  }

  lemma CounterpartsArrange(t: Table, t': Table, fs: seq<Filter>, arr: seq<User>)
    requires TableOk(t) && TableOk(t') && SameRows(t, t') && Arranges(arr, Selected(t, fs))
    requires forall id | id in t :: SameCells(t[id], t'[id])
    ensures Arranges(Counterparts(arr, t'), Selected(t', fs))
  {
    var arr' := Counterparts(arr, t');
    forall i | 0 <= i < |arr| ensures arr[i].id in t && t[arr[i].id] == arr[i] && Holds(arr[i], fs) {
      assert arr[i] in arr;
    }
    forall id | id in t ensures Holds(t[id], fs) <==> Holds(t'[id], fs) {
      assert SameCells(t[id], t'[id]);
    }
    forall u ensures u in arr' <==> u in Selected(t', fs) {
      if u in Selected(t', fs) {
        assert t[u.id] in arr;
        var i :| 0 <= i < |arr| && arr[i] == t[u.id];
        assert arr'[i] == u;
      }
    }
    assert forall i | 0 <= i < |arr| :: arr'[i].id == arr[i].id;
  }

  lemma CounterpartsSorted(t: Table, t': Table, orderBy: string, desc: bool, le: Collation, arr: seq<User>)
    requires forall i | 0 <= i < |arr| :: arr[i].id in t && arr[i].id in t' && t[arr[i].id] == arr[i]
    requires forall id | id in t && id in t' :: SameCells(t[id], t'[id])
    requires Sorted(arr, OrderColumn(orderBy), desc, le)
    ensures Sorted(Counterparts(arr, t'), OrderColumn(orderBy), desc, le)
  {
    var column, arr' := OrderColumn(orderBy), Counterparts(arr, t');
    forall i | 0 <= i < |arr| ensures CellOf(arr'[i], column) == CellOf(arr[i], column) {
      assert SameCells(t[arr[i].id], t'[arr[i].id]);
    }
  }

  /** A listing of one table is a listing of every table with the same rows, up to passwords. */
  lemma ListingAgrees(t: Table, t': Table, p: ListParams, le: Collation, arr: seq<User>,
                      users: seq<User>, hasMore: bool, total: nat)
    requires TableOk(t) && TableOk(t') && SameRows(t, t') && 0 <= p.limit && 0 <= p.offset
    requires IsListing(t, p, le, arr, users, hasMore, total)
    ensures IsListing(t', p, le, Counterparts(arr, t'), Counterparts(users, t'), hasMore, total)
    ensures forall i | 0 <= i < |users| :: Erase(Counterparts(users, t')[i]) == Erase(users[i])
  {
    var rows, rows', arr' := Selected(t, p.filters), Selected(t', p.filters), Counterparts(arr, t');
    forall id | id in t ensures SameCells(t[id], t'[id]) {
      ErasedSameCells(t[id], t'[id]);
    }
    forall i | 0 <= i < |arr| ensures arr[i].id in t && t[arr[i].id] == arr[i] {
      assert arr[i] in arr;
    }
    CounterpartsArrange(t, t', p.filters, arr);
    CounterpartsSorted(t, t', p.orderBy, p.desc, le, arr);
    ArrangementSize(arr, rows);
    ArrangementSize(arr', rows');
    CounterpartsSliced(t, t', p.offset, p.limit, arr);
  }

  lemma CounterpartsSliced(t: Table, t': Table, offset: nat, limit: nat, arr: seq<User>)
    requires SameRows(t, t')
    requires forall i | 0 <= i < |arr| :: arr[i].id in t && t[arr[i].id] == arr[i]
    ensures var users := Slice(arr, offset, limit);
            && Counterparts(users, t') == Slice(Counterparts(arr, t'), offset, limit)
            && forall i | 0 <= i < |users| :: Erase(Counterparts(users, t')[i]) == Erase(users[i])
  {
    var users, arr' := Slice(arr, offset, limit), Counterparts(arr, t');
    var start := Min(offset, |arr|);
    forall i | 0 <= i < |users| ensures users[i].id in t && t[users[i].id] == users[i] {
      assert users[i] == arr[start + i];
    }
    var sliced := Slice(arr', offset, limit);
    forall i | 0 <= i < |users| ensures Counterparts(users, t')[i] == sliced[i] {
      assert users[i] == arr[start + i] && sliced[i] == arr'[start + i];
    }
  }
}
