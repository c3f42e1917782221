/** Listing users: which rows a request selects, in which order, and where a page cuts them. */
module Listing {
  import opened Domain
  import opened Database
  import opened Ilike
  import opened Sql

  const TWO_63: int := 0x8000_0000_0000_0000

  /** Signed 64-bit wrap-around. */
  function Int64(x: int): int {
    (x + TWO_63) % (2 * TWO_63) - TWO_63
  }

  lemma Int64Exact(x: int)
    ensures Int64(x) == x <==> -TWO_63 <= x < TWO_63
  {
  }

  datatype ListParams = ListParams(limit: int, offset: int, filters: seq<Filter>, orderBy: string, desc: bool)

  // ---- The service's part ------------------------------------------------------------------------

  function Whitelist(fs: seq<Filter>): (r: seq<Filter>)
    ensures Whitelisted(r)
    ensures forall f :: f in r <==> f in fs && f.field in ALLOWED
  {
    if fs == [] then []
    else Whitelist(fs[..|fs| - 1]) + if fs[|fs| - 1].field in ALLOWED then [fs[|fs| - 1]] else []
  }

  function OrderColumn(orderBy: string): (column: string)
    ensures column == "" || column in COLUMNS
    ensures column == "" <==> orderBy == ""
  {
    if orderBy == "" || orderBy in ALLOWED || orderBy == "created_at" || orderBy == "updated_at"
    then orderBy
    else "created_at"
  }

  function HasMore(p: ListParams, total: int): bool {
    p.limit > 0 && total > Int64(p.offset + p.limit)
  }

  method ValidFilters(fs: seq<Filter>) returns (valid: seq<Filter>)
    ensures valid == Whitelist(fs)
  {
    valid := [];
    for i := 0 to |fs|
      invariant valid == Whitelist(fs[..i])
    {
      assert fs[..i + 1][..i] == fs[..i];
      if fs[i].field in ALLOWED {
        valid := valid + [fs[i]];
      }
    }
    assert fs[..|fs|] == fs;
  }

  method ValidOrder(orderBy: string) returns (column: string)
    ensures column == OrderColumn(orderBy)
  {
    column := orderBy;
    if orderBy != "" {
      if orderBy !in ALLOWED && orderBy != "created_at" && orderBy != "updated_at" {
        column := "created_at";
      }
    }
  }

  /** One list request: the two queries sent, and the answer made of the replies. A reply of None is
      a failed query. */
  method ListUsers(p: ListParams, count: Option<nat>, page: Option<seq<User>>)
    returns (countQuery: string, selectQuery: string, filterArgs: seq<Arg>, args: seq<Arg>,
             answer: Option<(seq<User>, bool, nat)>)
    ensures var fs := Whitelist(p.filters);
            && countQuery == CountText(fs) && filterArgs == FilterArgs(fs)
            && selectQuery == SelectText(fs, OrderColumn(p.orderBy), p.desc)
            && args == FilterArgs(fs) + [NumArg(p.limit), NumArg(p.offset)]
    ensures answer == if count.None? || page.None? then None
                      else Some((page.value, HasMore(p, count.value), count.value))
    ensures forall t: Table, le: Collation, arr: seq<User> ::
              && answer.Some? && RepliesCount(t, countQuery, filterArgs, answer.value.2)
              && RepliesPage(t, selectQuery, args, le, arr, answer.value.0) ==>
                Listed(t, p, le, arr, answer.value.0, answer.value.1, answer.value.2)
  {
    var valid := ValidFilters(p.filters);
    var column := ValidOrder(p.orderBy);
    countQuery, selectQuery, filterArgs, args := BuildQueries(valid, column, p.desc, p.limit, p.offset);
    answer := MakeAnswer(p, count, page);
  }

  method MakeAnswer(p: ListParams, count: Option<nat>, page: Option<seq<User>>)
    returns (answer: Option<(seq<User>, bool, nat)>)
    ensures answer == if count.None? || page.None? then None
                      else Some((page.value, HasMore(p, count.value), count.value))
  {
    if count.None? || page.None? {
      return None;
    }
    var hasMore := false;
    if p.limit > 0 && count.value > Int64(p.offset + p.limit) {
      hasMore := true;
    }
    return Some((page.value, hasMore, count.value));
  }

  // ---- The database's part -----------------------------------------------------------------------

  datatype Cell = TextCell(text: string) | TimeCell(time: int) | IdCell(id: Uuid)

  function TextOf(u: User, column: string): string {
    if column == "first_name" then u.firstName
    else if column == "last_name" then u.lastName
    else if column == "nickname" then u.nickname
    else if column == "password_hash" then u.password
    else if column == "email" then u.email
    else u.country
  }

  function CellOf(u: User, column: string): Cell {
    if column == "id" then IdCell(u.id)
    else if column == "created_at" then TimeCell(u.createdAt)
    else if column == "updated_at" then TimeCell(u.updatedAt)
    else TextCell(TextOf(u, column))
  }

  /** One condition with its argument bound. ILIKE needs a text column and a text argument. */
  predicate CondHolds(u: User, c: Cond, args: seq<Arg>) {
    && c.column in TEXT_COLUMNS
    && 1 <= c.arg <= |args| && args[c.arg - 1].TextArg?
    && Matches(TextOf(u, c.column), args[c.arg - 1].text)
  }

  predicate RowHolds(u: User, conds: seq<Cond>, args: seq<Arg>) {
    forall i | 0 <= i < |conds| :: CondHolds(u, conds[i], args)
  }

  function Matching(t: Table, conds: seq<Cond>, args: seq<Arg>): set<User> {
    set id | id in t && RowHolds(t[id], conds, args) :: t[id]
  }

  /** A listing of a set, each element once. */
  ghost predicate Arranges(arr: seq<User>, rows: set<User>) {
    && (forall u :: u in arr <==> u in rows)
    && (forall i, j | 0 <= i < j < |arr| :: arr[i] != arr[j])
  }

  type Collation = (Cell, Cell) -> bool

  /** Any total order of the cells of a column, as a collation and the order of times give. */
  ghost predicate TotalOrder(le: Collation) {
    && (forall a, b :: le(a, b) || le(b, a))
    && (forall a, b :: le(a, b) && le(b, a) ==> a == b)
    && (forall a, b, c :: le(a, b) && le(b, c) ==> le(a, c))
  }

  ghost predicate Sorted(arr: seq<User>, column: string, desc: bool, le: Collation) {
    forall i, j | 0 <= i < j < |arr| ::
      if desc then le(CellOf(arr[j], column), CellOf(arr[i], column))
      else le(CellOf(arr[i], column), CellOf(arr[j], column))
  }

  function Min(a: int, b: int): int {
    if a < b then a else b
  }

  /** LIMIT and OFFSET. */
  function Slice(arr: seq<User>, offset: nat, limit: nat): seq<User> {
    arr[Min(offset, |arr|)..Min(offset + limit, |arr|)]
  }

  function NumberAt(args: seq<Arg>, n: nat): Option<nat> {
    if 1 <= n <= |args| && args[n - 1].NumArg? && 0 <= args[n - 1].number then Some(args[n - 1].number) else None
  }

  /** total is a correct reply to a count query. */
  ghost predicate RepliesCount(t: Table, text: string, args: seq<Arg>, total: nat) {
    var q := Parsed(text);
    q.Some? && q.value.counts && q.value.tail.None? && total == |Matching(t, q.value.conds, args)|
  }

  /** users is a correct reply to a page query when the database arranges the matching rows as arr. */
  ghost predicate RepliesPage(t: Table, text: string, args: seq<Arg>, le: Collation, arr: seq<User>, users: seq<User>) {
    var q := Parsed(text);
    && q.Some? && !q.value.counts && q.value.tail.Some?
    && var tail := q.value.tail.value;
       var limit, offset := NumberAt(args, tail.limit), NumberAt(args, tail.offset);
       && limit.Some? && offset.Some?
       && Arranges(arr, Matching(t, q.value.conds, args))
       && Sorted(arr, tail.column, tail.desc, le)
       && users == Slice(arr, offset.value, limit.value)
  }

  /** A list request answered with users, hasMore and total by a database that arranges rows as arr. */
  ghost predicate Listed(t: Table, p: ListParams, le: Collation, arr: seq<User>,
                         users: seq<User>, hasMore: bool, total: nat)
  {
    var fs := Whitelist(p.filters);
    && RepliesCount(t, CountText(fs), FilterArgs(fs), total)
    && RepliesPage(t, SelectText(fs, OrderColumn(p.orderBy), p.desc),
                   FilterArgs(fs) + [NumArg(p.limit), NumArg(p.offset)], le, arr, users)
    && hasMore == HasMore(p, total)
  }

  // ---- What a list request means -------------------------------------------------------------------

  /** The filter's pattern accepts the field it names. */
  predicate FilterHolds(u: User, f: Filter) {
    Matches(TextOf(u, f.field), Pattern(f.value))
  }

  /** Every allowed filter finds its pattern in its field. Other filters say nothing. */
  ghost predicate Holds(u: User, fs: seq<Filter>) {
    forall f | f in fs && f.field in ALLOWED :: FilterHolds(u, f)
  }

  ghost function Selected(t: Table, fs: seq<Filter>): set<User> {
    set id | id in t && Holds(t[id], fs) :: t[id]
  }

  lemma {:induction false} CondMeans(u: User, fs: seq<Filter>, more: seq<Arg>, i: nat)
    requires i < |fs| && fs[i].field in ALLOWED
    ensures CondHolds(u, CondsOf(fs, 1)[i], FilterArgs(fs) + more) <==> FilterHolds(u, fs[i])
  {
    AllowedIsColumn(fs[i].field);
    assert (FilterArgs(fs) + more)[i] == FilterArgs(fs)[i];
  }

  /** The compiled conditions, each with its own argument, are the conjunction of the filters. */
  lemma {:induction false} WhereMeans(u: User, fs: seq<Filter>, more: seq<Arg>)
    requires Whitelisted(fs)
    ensures RowHolds(u, CondsOf(fs, 1), FilterArgs(fs) + more) <==> Holds(u, fs)
  {
    var conds, args := CondsOf(fs, 1), FilterArgs(fs) + more;
    forall i | 0 <= i < |fs| ensures CondHolds(u, conds[i], args) <==> FilterHolds(u, fs[i]) {
      CondMeans(u, fs, more, i);
    }
    if RowHolds(u, conds, args) {
      forall f | f in fs && f.field in ALLOWED ensures FilterHolds(u, f) {
        var i :| 0 <= i < |fs| && fs[i] == f;
        assert CondHolds(u, conds[i], args);
      }
    } else {
      var i :| 0 <= i < |fs| && !CondHolds(u, conds[i], args);
      assert fs[i] in fs && !FilterHolds(u, fs[i]);
    }
  }

  lemma {:induction false} MatchingIsSelected(t: Table, fs: seq<Filter>, more: seq<Arg>)
    ensures Matching(t, CondsOf(Whitelist(fs), 1), FilterArgs(Whitelist(fs)) + more) == Selected(t, fs)
  {
    forall id | id in t
      ensures RowHolds(t[id], CondsOf(Whitelist(fs), 1), FilterArgs(Whitelist(fs)) + more) <==> Holds(t[id], fs)
    {
      WhereMeans(t[id], Whitelist(fs), more);
    }
  }

  /** The answer to a list request, said of rows instead of queries. */
  ghost predicate IsListing(t: Table, p: ListParams, le: Collation, arr: seq<User>,
                            users: seq<User>, hasMore: bool, total: nat)
    requires 0 <= p.limit && 0 <= p.offset
  {
    && total == |Selected(t, p.filters)|
    && Arranges(arr, Selected(t, p.filters))
    && Sorted(arr, OrderColumn(p.orderBy), p.desc, le)
    && users == Slice(arr, p.offset, p.limit)
    && hasMore == HasMore(p, total)
  }

  lemma CountReplyMeans(t: Table, p: ListParams, total: nat)
    ensures var fs := Whitelist(p.filters);
            RepliesCount(t, CountText(fs), FilterArgs(fs), total) <==> total == |Selected(t, p.filters)|
  {
    var fs := Whitelist(p.filters);
    CountMeans(fs);
    MatchingIsSelected(t, p.filters, []);
    assert FilterArgs(fs) + [] == FilterArgs(fs);
  }

  lemma PageReplyMeans(t: Table, p: ListParams, le: Collation, arr: seq<User>, users: seq<User>)
    requires 0 <= p.limit && 0 <= p.offset
    ensures var fs := Whitelist(p.filters);
            RepliesPage(t, SelectText(fs, OrderColumn(p.orderBy), p.desc),
                        FilterArgs(fs) + [NumArg(p.limit), NumArg(p.offset)], le, arr, users) <==>
            && p.orderBy != ""
            && Arranges(arr, Selected(t, p.filters))
            && Sorted(arr, OrderColumn(p.orderBy), p.desc, le)
            && users == Slice(arr, p.offset, p.limit)
  {
    var fs := Whitelist(p.filters);
    SelectMeans(fs, OrderColumn(p.orderBy), p.desc);
    MatchingIsSelected(t, p.filters, [NumArg(p.limit), NumArg(p.offset)]);
    PageArgs(fs, p.limit, p.offset);
  }

  /** The page numbers are bound to the two placeholders after those of the filters. */
  lemma PageArgs(fs: seq<Filter>, limit: nat, offset: nat)
    ensures var args := FilterArgs(fs) + [NumArg(limit), NumArg(offset)];
            NumberAt(args, |fs| + 1) == Some(limit) && NumberAt(args, |fs| + 2) == Some(offset)
  {
  }

  /** A list request is answered exactly when it names an order, and then by the rows that satisfy
      every allowed filter, counted, arranged in that order, and cut at offset and limit. */
  lemma ListMeans(t: Table, p: ListParams, le: Collation, arr: seq<User>,
                  users: seq<User>, hasMore: bool, total: nat)
    requires 0 <= p.limit && 0 <= p.offset
    ensures Listed(t, p, le, arr, users, hasMore, total) <==>
            p.orderBy != "" && IsListing(t, p, le, arr, users, hasMore, total)
  {
    CountReplyMeans(t, p, total);
    PageReplyMeans(t, p, le, arr, users);
  }

  /** The database refuses a negative OFFSET. */
  lemma NegativeOffsetRefused(t: Table, p: ListParams, le: Collation, arr: seq<User>,
                              users: seq<User>, hasMore: bool, total: nat)
    requires p.offset < 0
    ensures !Listed(t, p, le, arr, users, hasMore, total)
  {
    var fs := Whitelist(p.filters);
    SelectMeans(fs, OrderColumn(p.orderBy), p.desc);
    var args := FilterArgs(fs) + [NumArg(p.limit), NumArg(p.offset)];
    assert args[|fs| + 1] == NumArg(p.offset);
  }

  lemma SelectedByMembers(t: Table, fs: seq<Filter>, gs: seq<Filter>)
    requires forall f :: f in fs <==> f in gs
    ensures Selected(t, fs) == Selected(t, gs)
  {
  }

  lemma ListingByMembers(t: Table, p: ListParams, q: ListParams, le: Collation, arr: seq<User>,
                         users: seq<User>, hasMore: bool, total: nat)
    requires 0 <= p.limit && 0 <= p.offset && q == p.(filters := q.filters)
    requires forall f :: f in p.filters <==> f in q.filters
    ensures IsListing(t, p, le, arr, users, hasMore, total) <==> IsListing(t, q, le, arr, users, hasMore, total)
  {
    SelectedByMembers(t, p.filters, q.filters);
  }

  /** Reordering or repeating filters changes nothing, as when they come out of a map. */
  lemma FilterOrderIndependence(t: Table, p: ListParams, q: ListParams, le: Collation, arr: seq<User>,
                                users: seq<User>, hasMore: bool, total: nat)
    requires 0 <= p.limit && 0 <= p.offset && q == p.(filters := q.filters)
    requires forall f :: f in p.filters <==> f in q.filters
    ensures Listed(t, p, le, arr, users, hasMore, total) <==> Listed(t, q, le, arr, users, hasMore, total)
  {
    ListMeans(t, p, le, arr, users, hasMore, total);
    ListMeans(t, q, le, arr, users, hasMore, total);
    ListingByMembers(t, p, q, le, arr, users, hasMore, total);
  }

  // ---- Which field is which ------------------------------------------------------------------------

  /** Filters on the five fields look at those fields; a filter on anything else says nothing. */
  lemma {:induction false} FilterPerField(u: User, v: string)
    ensures Holds(u, [Filter("first_name", v)]) <==> Matches(u.firstName, Pattern(v))
    ensures Holds(u, [Filter("last_name", v)]) <==> Matches(u.lastName, Pattern(v))
    ensures Holds(u, [Filter("nickname", v)]) <==> Matches(u.nickname, Pattern(v))
    ensures Holds(u, [Filter("email", v)]) <==> Matches(u.email, Pattern(v))
    ensures Holds(u, [Filter("country", v)]) <==> Matches(u.country, Pattern(v))
    ensures forall field | field !in ["first_name", "last_name", "nickname", "email", "country"] ::
              Holds(u, [Filter(field, v)])
  {
    OneFilter(u, Filter("first_name", v));
    OneFilter(u, Filter("last_name", v));
    OneFilter(u, Filter("nickname", v));
    OneFilter(u, Filter("email", v));
    OneFilter(u, Filter("country", v));
    forall field | field !in ["first_name", "last_name", "nickname", "email", "country"]
      ensures Holds(u, [Filter(field, v)])
    {
      OneFilter(u, Filter(field, v));
    }
  }

  lemma OneFilter(u: User, f: Filter)
    ensures Holds(u, [f]) <==> (f.field in ALLOWED ==> FilterHolds(u, f))
  {
    assert f in [f];
  }

  /** Several filters must all hold. */
  lemma FiltersConjoin(t: Table, fs: seq<Filter>, gs: seq<Filter>)
    ensures Selected(t, fs + gs) == Selected(t, fs) * Selected(t, gs)
    ensures Selected(t, []) == t.Values
  {
    forall u | u in Selected(t, fs) * Selected(t, gs) ensures Holds(u, fs + gs) {
    }
  }

  /** The column that a list is ordered by, per name asked for: any other name means created_at. */
  lemma {:induction false} OrderPerName(u: User)
    ensures CellOf(u, OrderColumn("first_name")) == TextCell(u.firstName)
    ensures CellOf(u, OrderColumn("last_name")) == TextCell(u.lastName)
    ensures CellOf(u, OrderColumn("nickname")) == TextCell(u.nickname)
    ensures CellOf(u, OrderColumn("email")) == TextCell(u.email)
    ensures CellOf(u, OrderColumn("country")) == TextCell(u.country)
    ensures CellOf(u, OrderColumn("updated_at")) == TimeCell(u.updatedAt)
    ensures CellOf(u, "created_at") == TimeCell(u.createdAt)
    ensures forall orderBy |
              orderBy !in ["", "first_name", "last_name", "nickname", "email", "country", "updated_at"] ::
                OrderColumn(orderBy) == "created_at"
  {
  }

  /** Valid filters keep their order and number. */
  lemma {:induction false} WhitelistKeepsOrder(fs: seq<Filter>, gs: seq<Filter>)
    ensures Whitelist(fs + gs) == Whitelist(fs) + Whitelist(gs)
    decreases |gs|
  {
    if gs == [] {
      assert fs + gs == fs;
    } else {
      var n := |gs| - 1;
      assert (fs + gs)[..|fs + gs| - 1] == fs + gs[..n] && (fs + gs)[|fs + gs| - 1] == gs[n];
      WhitelistKeepsOrder(fs, gs[..n]);
    }
  }

  lemma {:induction false} WhitelistOne(f: Filter)
    ensures Whitelist([f]) == if f.field in ["first_name", "last_name", "nickname", "email", "country"] then [f] else []
  {
    assert [f][..0] == [];
  }

  // ---- Order -------------------------------------------------------------------------------------

  lemma {:induction false} ArrangementSize(arr: seq<User>, rows: set<User>)
    requires Arranges(arr, rows)
    ensures |arr| == |rows|
    decreases |arr|
  {
    if arr == [] {
      assert forall u :: u in rows <==> u in arr;
    } else {
      RestArranges(arr, rows);
      ArrangementSize(arr[1..], rows - {arr[0]});
    }
  }

  lemma RestArranges(arr: seq<User>, rows: set<User>)
    requires arr != [] && Arranges(arr, rows)
    ensures arr[0] in rows && Arranges(arr[1..], rows - {arr[0]})
  {
    assert arr[0] in arr;
    forall u ensures u in arr[1..] <==> u in rows - {arr[0]} {
      if u in arr[1..] {
        var i :| 0 <= i < |arr[1..]| && arr[1..][i] == u;
        assert arr[i + 1] == u && arr[0] != u;
        assert u in arr;
      }
      assert arr == [arr[0]] + arr[1..];
    }
  }

  /** The column tells the rows apart, as a UNIQUE column does. */
  ghost predicate Separates(rows: set<User>, column: string) {
    forall u, v | u in rows && v in rows && CellOf(u, column) == CellOf(v, column) :: u == v
  }

  lemma UniqueColumnsSeparate(t: Table, fs: seq<Filter>, column: string)
    requires TableOk(t) && (column == "email" || column == "nickname")
    ensures Separates(Selected(t, fs), column)
  {
  }

  lemma HeadsEqual(a: seq<User>, b: seq<User>, rows: set<User>, column: string, desc: bool, le: Collation)
    requires TotalOrder(le) && Separates(rows, column) && a != [] && b != []
    requires Arranges(a, rows) && Arranges(b, rows)
    requires Sorted(a, column, desc, le) && Sorted(b, column, desc, le)
    ensures a[0] == b[0]
  {
    RestArranges(a, rows);
    RestArranges(b, rows);
    FirstIsExtreme(a, b[0], rows, column, desc, le);
    FirstIsExtreme(b, a[0], rows, column, desc, le);
    assert CellOf(a[0], column) == CellOf(b[0], column);
  }

  lemma RestSorted(a: seq<User>, column: string, desc: bool, le: Collation)
    requires a != [] && Sorted(a, column, desc, le)
    ensures Sorted(a[1..], column, desc, le)
  {
  }

  /** Sorted by a column that separates the rows, an arrangement is unique. */
  lemma {:induction false} SortedUnique(a: seq<User>, b: seq<User>, rows: set<User>,
                                        column: string, desc: bool, le: Collation)
    requires TotalOrder(le) && Separates(rows, column)
    requires Arranges(a, rows) && Arranges(b, rows)
    requires Sorted(a, column, desc, le) && Sorted(b, column, desc, le)
    ensures a == b
    decreases |a|
  {
    ArrangementSize(a, rows);
    ArrangementSize(b, rows);
    if a != [] {
      HeadsEqual(a, b, rows, column, desc, le);
      RestArranges(a, rows);
      RestArranges(b, rows);
      RestSorted(a, column, desc, le);
      RestSorted(b, column, desc, le);
      SortedUnique(a[1..], b[1..], rows - {a[0]}, column, desc, le);
      assert a == [a[0]] + a[1..] && b == [b[0]] + b[1..];
    }
  }

  lemma FirstIsExtreme(a: seq<User>, u: User, rows: set<User>, column: string, desc: bool, le: Collation)
    requires TotalOrder(le) && a != [] && Arranges(a, rows) && Sorted(a, column, desc, le)
    requires u in rows
    ensures if desc then le(CellOf(u, column), CellOf(a[0], column)) else le(CellOf(a[0], column), CellOf(u, column))
  {
    assert u in a;
    var i :| 0 <= i < |a| && a[i] == u;
    assert le(CellOf(u, column), CellOf(u, column));
  }

  /** Every finite set of rows has a sorted arrangement. */
  lemma {:induction false} SortedExists(rows: set<User>, column: string, desc: bool, le: Collation)
    returns (arr: seq<User>)
    requires TotalOrder(le)
    ensures Arranges(arr, rows) && Sorted(arr, column, desc, le)
    decreases |rows|
  {
    if rows == {} {
      arr := [];
    } else {
      var u :| u in rows;
      var rest := SortedExists(rows - {u}, column, desc, le);
      arr := InsertSorted(rest, rows - {u}, u, column, desc, le);
      assert rows - {u} + {u} == rows;
    }
  }

  lemma {:induction false} InsertSorted(arr: seq<User>, rows: set<User>, u: User,
                                        column: string, desc: bool, le: Collation) returns (r: seq<User>)
    requires TotalOrder(le) && u !in rows && Arranges(arr, rows) && Sorted(arr, column, desc, le)
    ensures Arranges(r, rows + {u}) && Sorted(r, column, desc, le)
    decreases |arr|
  {
    if arr == [] {
      r := [u];
    } else {
      var (a, b) := (CellOf(u, column), CellOf(arr[0], column));
      if if desc then le(b, a) else le(a, b) {
        r := [u] + arr;
      } else {
        RestArranges(arr, rows);
        var rest := InsertSorted(arr[1..], rows - {arr[0]}, u, column, desc, le);
        r := [arr[0]] + rest;
        assert forall v | v in rest :: v == u || v in rows;
        assert forall v | v in rows :: v == arr[0] || v in rest;
        forall v | v in rest
          ensures if desc then le(CellOf(v, column), b) else le(b, CellOf(v, column))
        {
          if v != u {
            FirstIsExtreme(arr, v, rows, column, desc, le);
          }
        }
      }
    }
  }

  function Reverse(a: seq<User>): (r: seq<User>)
    ensures |r| == |a| && forall i | 0 <= i < |a| :: r[i] == a[|a| - 1 - i]
  {
    seq(|a|, i requires 0 <= i < |a| => a[|a| - 1 - i])
  }

  /** Descending order on a separating column is ascending order reversed. */
  lemma DescendingIsReverse(asc: seq<User>, dsc: seq<User>, rows: set<User>, column: string, le: Collation)
    requires TotalOrder(le) && Separates(rows, column)
    requires Arranges(asc, rows) && Sorted(asc, column, false, le)
    requires Arranges(dsc, rows) && Sorted(dsc, column, true, le)
    ensures dsc == Reverse(asc)
  {
    var r := Reverse(asc);
    forall u ensures u in r <==> u in rows {
      if u in rows {
        assert u in asc;
        var i :| 0 <= i < |asc| && asc[i] == u;
        assert r[|asc| - 1 - i] == u;
      }
    }
    SortedUnique(dsc, r, rows, column, true, le);
  }
}
