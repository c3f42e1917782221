/** The SQL text that the repository sends for a list, and what a database reads in it. */
module Sql {
  import opened Domain
  import opened Ilike

  /** One condition of a list request. */
  datatype Filter = Filter(field: string, value: string)

  datatype Arg = TextArg(text: string) | NumArg(number: int)

  // ---- Numbers and words -------------------------------------------------------------------------

  function Dec(n: nat): string {
    if n < 10 then [('0' as int + n) as char] else Dec(n / 10) + [('0' as int + n % 10) as char]
  }

  predicate Digits(s: string) {
    forall i | 0 <= i < |s| :: '0' <= s[i] <= '9'
  }

  function Value(s: string): nat
    requires Digits(s)
  {
    if s == "" then 0 else 10 * Value(s[..|s| - 1]) + (s[|s| - 1] as int - '0' as int)
  }

  lemma {:induction false} DecRoundTrip(n: nat)
    ensures Dec(n) != "" && Digits(Dec(n)) && Value(Dec(n)) == n
  {
    if n < 10 {
      assert Dec(n)[..0] == "";
    } else {
      DecRoundTrip(n / 10);
      assert Dec(n)[..|Dec(n)| - 1] == Dec(n / 10);
    }
  }

  const TEXT_COLUMNS := {"first_name", "last_name", "nickname", "password_hash", "email", "country"}
  const COLUMNS := TEXT_COLUMNS + {"id", "created_at", "updated_at"}

  datatype Token =
    | Select | Star | CountStar | From | Users | Where | And | Like
    | Order | By | Asc | Desc | Limit | Offset
    | Name(column: string)
    | Param(n: nat)
    | Junk(word: string)

  /** What a database makes of one word. */
  function Classify(w: string): Token
    requires w != ""
  {
    if w[0] == '$' then if |w| > 1 && Digits(w[1..]) then Param(Value(w[1..])) else Junk(w)
    else if 'a' <= w[0] <= 'z' then
      if w in COLUMNS then Name(w) else if w == "users" then Users else Junk(w)
    else if w == "SELECT" then Select
    else if w == "*" then Star
    else if w == "COUNT(*)" then CountStar
    else if w == "FROM" then From
    else if w == "WHERE" then Where
    else if w == "AND" then And
    else if w == "ILIKE" then Like
    else if w == "ORDER" then Order
    else if w == "BY" then By
    else if w == "ASC" then Asc
    else if w == "DESC" then Desc
    else if w == "LIMIT" then Limit
    else if w == "OFFSET" then Offset
    else Junk(w)
  }

  function Placeholder(n: nat): string {
    "$" + Dec(n)
  }

  function Spell(t: Token): string {
    match t
    case Select => "SELECT"
    case Star => "*"
    case CountStar => "COUNT(*)"
    case From => "FROM"
    case Users => "users"
    case Where => "WHERE"
    case And => "AND"
    case Like => "ILIKE"
    case Order => "ORDER"
    case By => "BY"
    case Asc => "ASC"
    case Desc => "DESC"
    case Limit => "LIMIT"
    case Offset => "OFFSET"
    case Name(column) => column
    case Param(n) => Placeholder(n)
    case Junk(w) => w
  }

  predicate Spelt(t: Token) {
    !t.Junk? && (t.Name? ==> t.column in COLUMNS)
  }

  lemma ParamIsSpelt(n: nat)
    ensures Word(Placeholder(n)) && Classify(Placeholder(n)) == Param(n)
  {
    DecRoundTrip(n);
    var w := Placeholder(n);
    assert w[0] == '$' && w[1..] == Dec(n);
  }

  lemma NameIsSpelt(column: string)
    requires column in COLUMNS
    ensures Word(column) && Classify(column) == Name(column)
  {
  }

  /** A word reads back as the token it spells. */
  lemma SpellingRoundTrip(t: Token)
    requires Spelt(t)
    ensures Word(Spell(t)) && Classify(Spell(t)) == t
  {
    match t
    case Name(column) => NameIsSpelt(column);
    case Param(n) => ParamIsSpelt(n);
    case _ =>
  }

  /** Tokens spelt out with a blank between any two. */
  function Text(ts: seq<Token>): string {
    if ts == [] then "" else if |ts| == 1 then Spell(ts[0]) else Spell(ts[0]) + " " + Text(ts[1..])
  }

  function Flush(word: string): seq<Token> {
    if word == "" then [] else [Classify(word)]
  }

  /** Splits at blanks; word is what has been read of the current word. */
  function LexFrom(word: string, s: string): seq<Token>
    decreases |s|
  {
    if s == "" then Flush(word)
    else if s[0] == ' ' then Flush(word) + LexFrom("", s[1..])
    else LexFrom(word + [s[0]], s[1..])
  }

  function Lex(s: string): seq<Token> {
    LexFrom("", s)
  }

  predicate Word(w: string) {
    w != "" && ' ' !in w
  }

  lemma {:induction false} LexAppend(word: string, a: string, b: string)
    ensures LexFrom(word, a + " " + b) == LexFrom(word, a) + Lex(b)
    decreases |a|
  {
    if a == "" {
      assert a + " " + b == " " + b;
    } else {
      assert (a + " " + b)[0] == a[0] && (a + " " + b)[1..] == a[1..] + " " + b;
      if a[0] == ' ' {
        LexAppend("", a[1..], b);
      } else {
        LexAppend(word + [a[0]], a[1..], b);
      }
    }
  }

  lemma LexJoin(a: string, b: string)
    ensures Lex(a + " " + b) == Lex(a) + Lex(b)
  {
    LexAppend("", a, b);
  }

  lemma {:induction false} LexWordFrom(word: string, w: string)
    requires ' ' !in w
    ensures LexFrom(word, w) == Flush(word + w)
    decreases |w|
  {
    if w == "" {
      assert word + w == word;
    } else {
      assert w[0] in w;
      LexWordFrom(word + [w[0]], w[1..]);
      assert word + [w[0]] + w[1..] == word + w;
    }
  }

  lemma LexWord(w: string)
    requires Word(w)
    ensures Lex(w) == [Classify(w)]
  {
    LexWordFrom("", w);
    assert "" + w == w;
  }

  /** Spelling tokens out and reading them back gives the same tokens. */
  lemma {:induction false} LexText(ts: seq<Token>)
    requires forall i | 0 <= i < |ts| :: Spelt(ts[i])
    ensures Lex(Text(ts)) == ts
    decreases |ts|
  {
    if ts != [] {
      SpellingRoundTrip(ts[0]);
      LexWord(Spell(ts[0]));
      if |ts| > 1 {
        LexJoin(Spell(ts[0]), Text(ts[1..]));
        LexText(ts[1..]);
      }
    }
  }

  lemma {:induction false} TextAppend(a: seq<Token>, b: seq<Token>)
    requires a != [] && b != []
    ensures Text(a + b) == Text(a) + " " + Text(b)
    decreases |a|
  {
    assert (a + b)[1..] == a[1..] + b;
    if |a| == 1 {
      assert a[1..] + b == b;
    } else {
      TextAppend(a[1..], b);
      Associate(Spell(a[0]) + " ", Text(a[1..]), " " + Text(b));
    }
  }

  lemma Associate(a: string, b: string, c: string)
    ensures a + b + c == a + (b + c)
  {
  }

  // ---- Building the two queries ------------------------------------------------------------------

  function Condition(f: Filter, n: nat): string {
    f.field + " ILIKE " + Placeholder(n)
  }

  function Conditions(fs: seq<Filter>, n: nat): (cs: seq<string>)
    ensures |cs| == |fs|
    ensures forall i | 0 <= i < |fs| :: cs[i] == Condition(fs[i], n + i)
  {
    if fs == [] then [] else [Condition(fs[0], n)] + Conditions(fs[1..], n + 1)
  }

  function Join(cs: seq<string>, sep: string): string {
    if cs == [] then "" else if |cs| == 1 then cs[0] else cs[0] + sep + Join(cs[1..], sep)
  }

  function WhereClause(fs: seq<Filter>): string {
    if fs == [] then "" else " WHERE " + Join(Conditions(fs, 1), " AND ")
  }

  function Head(what: string): string {
    "SELECT " + what + " FROM users"
  }

  function CountText(fs: seq<Filter>): string {
    Head("COUNT(*)") + WhereClause(fs)
  }

  /** The ordering and the page after a query that uses n placeholders. */
  function Paged(query: string, orderBy: string, desc: bool, n: nat): string {
    query + " ORDER BY " + orderBy + (if desc then " DESC" else " ASC")
    + " LIMIT " + Placeholder(n + 1) + " OFFSET " + Placeholder(n + 2)
  }

  function SelectText(fs: seq<Filter>, orderBy: string, desc: bool): string {
    Paged(Head("*") + WhereClause(fs), orderBy, desc, |fs|)
  }

  function FilterArgs(fs: seq<Filter>): (args: seq<Arg>)
    ensures |args| == |fs|
    ensures forall i | 0 <= i < |fs| :: args[i] == TextArg(Pattern(fs[i].value))
  {
    seq(|fs|, i requires 0 <= i < |fs| => TextArg(Pattern(fs[i].value)))
  }

  /** The loop over the filters: conditions, their arguments, and the next free placeholder. */
  method BuildConditions(fs: seq<Filter>)
    returns (conditions: seq<string>, filterArgs: seq<Arg>, argCount: nat)
    ensures conditions == Conditions(fs, 1) && filterArgs == FilterArgs(fs) && argCount == |fs| + 1
  {
    conditions, filterArgs, argCount := [], [], 1;
    for i := 0 to |fs|
      invariant argCount == i + 1
      invariant |conditions| == i && forall j | 0 <= j < i :: conditions[j] == Condition(fs[j], 1 + j)
      invariant |filterArgs| == i && forall j | 0 <= j < i :: filterArgs[j] == TextArg(Pattern(fs[j].value))
    {
      conditions := conditions + [fs[i].field + " ILIKE " + Placeholder(argCount)];
      filterArgs := filterArgs + [TextArg("%" + fs[i].value + "%")];
      argCount := argCount + 1;
    }
  }

  lemma HeadTexts()
    ensures Head("COUNT(*)") == "SELECT COUNT(*) FROM users"
    ensures Head("*") == "SELECT * FROM users"
  {
  }

  /** The texts and the arguments that a list sends. */
  method BuildQueries(fs: seq<Filter>, orderBy: string, desc: bool, limit: int, offset: int)
    returns (countQuery: string, selectQuery: string, filterArgs: seq<Arg>, args: seq<Arg>)
    ensures countQuery == CountText(fs)
    ensures selectQuery == SelectText(fs, orderBy, desc)
    ensures filterArgs == FilterArgs(fs) && args == FilterArgs(fs) + [NumArg(limit), NumArg(offset)]
  {
    var conditions, argCount;
    conditions, filterArgs, argCount := BuildConditions(fs);
    var whereClause := "";
    if |conditions| > 0 {
      whereClause := " WHERE " + Join(conditions, " AND ");
    }
    HeadTexts();
    countQuery := "SELECT COUNT(*) FROM users" + whereClause;
    selectQuery := "SELECT * FROM users" + whereClause;
    selectQuery := selectQuery + " ORDER BY " + orderBy;
    if desc {
      selectQuery := selectQuery + " DESC";
    } else {
      selectQuery := selectQuery + " ASC";
    }
    selectQuery := selectQuery + " LIMIT " + Placeholder(argCount) + " OFFSET " + Placeholder(argCount + 1);
    args := filterArgs + [NumArg(limit), NumArg(offset)];
  }

  // ---- Reading a query ---------------------------------------------------------------------------

  datatype Cond = Cond(column: string, arg: nat)

  datatype Tail = Tail(column: string, desc: bool, limit: nat, offset: nat)

  datatype Query = Query(counts: bool, conds: seq<Cond>, tail: Option<Tail>)

  /** column ILIKE $n (AND column ILIKE $n)*, and the tokens left over. */
  function ReadConds(ts: seq<Token>): Option<(seq<Cond>, seq<Token>)>
    decreases |ts|
  {
    if |ts| < 3 || !ts[0].Name? || !ts[1].Like? || !ts[2].Param? then None
    else
      var c := Cond(ts[0].column, ts[2].n);
      if |ts| > 3 && ts[3].And? then
        var more := ReadConds(ts[4..]);
        if more.None? then None else Some(([c] + more.value.0, more.value.1))
      else
        Some(([c], ts[3..]))
  }

  /** Nothing, or ORDER BY column ASC|DESC LIMIT $n OFFSET $n. */
  function ReadTail(ts: seq<Token>): Option<Option<Tail>> {
    if ts == [] then Some(None)
    else if |ts| == 8 && ts[0].Order? && ts[1].By? && ts[2].Name? && (ts[3].Asc? || ts[3].Desc?)
            && ts[4].Limit? && ts[5].Param? && ts[6].Offset? && ts[7].Param? then
      Some(Some(Tail(ts[2].column, ts[3].Desc?, ts[5].n, ts[7].n)))
    else None
  }

  /** An optional WHERE clause, then the tail. */
  function ReadBody(counts: bool, ts: seq<Token>): Option<Query> {
    var body := if ts != [] && ts[0].Where? then ReadConds(ts[1..]) else Some(([], ts));
    if body.None? then None else
    var tail := ReadTail(body.value.1);
    if tail.None? then None else Some(Query(counts, body.value.0, tail.value))
  }

  function ReadQuery(ts: seq<Token>): Option<Query> {
    if |ts| >= 4 && ts[0].Select? && (ts[1].Star? || ts[1].CountStar?) && ts[2].From? && ts[3].Users?
    then ReadBody(ts[1].CountStar?, ts[4..])
    else None
  }

  // ---- The text means the filters ----------------------------------------------------------------

  /** Fields that a request may filter on, all of them text columns. */
  const ALLOWED := {"first_name", "last_name", "nickname", "email", "country"}

  ghost predicate Whitelisted(fs: seq<Filter>) {
    forall i | 0 <= i < |fs| :: fs[i].field in ALLOWED
  }

  lemma AllowedIsColumn(field: string)
    requires field in ALLOWED
    ensures field in TEXT_COLUMNS && field in COLUMNS && Word(field)
  {
  }

  /** Condition i binds the i-th placeholder, counting from n. */
  function CondsOf(fs: seq<Filter>, n: nat): (cs: seq<Cond>)
    ensures |cs| == |fs| && forall i | 0 <= i < |fs| :: cs[i] == Cond(fs[i].field, n + i)
  {
    if fs == [] then [] else [Cond(fs[0].field, n)] + CondsOf(fs[1..], n + 1)
  }

  function CondHead(f: Filter, n: nat): seq<Token> {
    [Name(f.field), Like, Param(n)]
  }

  lemma ConditionText(f: Filter, n: nat)
    ensures Condition(f, n) == Text(CondHead(f, n))
  {
    var ts := CondHead(f, n);
    assert Text(ts[2..]) == Placeholder(n);
    assert ts[1..][1..] == ts[2..];
    assert Text(ts[1..]) == "ILIKE" + " " + Placeholder(n);
    assert " ILIKE " == " " + "ILIKE" + " ";
  }

  /** The tokens of the conditions. */
  function CondTokens(fs: seq<Filter>, n: nat): seq<Token>
    decreases |fs|
  {
    if fs == [] then [] else
    CondHead(fs[0], n) + (if |fs| == 1 then [] else [And] + CondTokens(fs[1..], n + 1))
  }

  lemma {:induction false} CondsText(fs: seq<Filter>, n: nat)
    requires fs != []
    ensures Join(Conditions(fs, n), " AND ") == Text(CondTokens(fs, n))
    decreases |fs|
  {
    ConditionText(fs[0], n);
    var cs := Conditions(fs, n);
    if |fs| == 1 {
      assert CondTokens(fs, n) == CondHead(fs[0], n);
      assert Join(cs, " AND ") == cs[0];
    } else {
      assert cs[0] == Condition(fs[0], n) && cs[1..] == Conditions(fs[1..], n + 1);
      CondsText(fs[1..], n + 1);
      TextAppend([And], CondTokens(fs[1..], n + 1));
      TextAppend(CondHead(fs[0], n), [And] + CondTokens(fs[1..], n + 1));
      AndText(cs[0], Join(cs[1..], " AND "));
    }
  }

  lemma AndText(a: string, b: string)
    ensures a + " AND " + b == a + " " + (Text([And]) + " " + b)
  {
  }

  /** Reading the last condition, or one that another follows. */
  lemma {:induction false} LastCondRead(f: Filter, n: nat, rest: seq<Token>)
    requires rest != [] ==> !rest[0].And?
    ensures ReadConds(CondHead(f, n) + rest) == Some(([Cond(f.field, n)], rest))
  {
  }

  lemma {:induction false} NextCondRead(f: Filter, n: nat, more: seq<Token>)
    requires ReadConds(more).Some?
    ensures ReadConds(CondHead(f, n) + ([And] + more))
            == Some(([Cond(f.field, n)] + ReadConds(more).value.0, ReadConds(more).value.1))
  {
    assert (CondHead(f, n) + ([And] + more))[4..] == more;
  }

  /** Reading the conditions back, up to what does not continue them. */
  lemma {:induction false} CondsRead(fs: seq<Filter>, n: nat, rest: seq<Token>)
    requires fs != [] && (rest != [] ==> !rest[0].And?)
    ensures ReadConds(CondTokens(fs, n) + rest) == Some((CondsOf(fs, n), rest))
    decreases |fs|
  {
    if |fs| == 1 {
      assert CondTokens(fs, n) + rest == CondHead(fs[0], n) + rest;
      LastCondRead(fs[0], n, rest);
      assert CondsOf(fs, n) == [Cond(fs[0].field, n)];
    } else {
      var more := CondTokens(fs[1..], n + 1) + rest;
      assert CondTokens(fs, n) + rest == CondHead(fs[0], n) + ([And] + more);
      CondsRead(fs[1..], n + 1, rest);
      NextCondRead(fs[0], n, more);
    }
  }

  function What(counts: bool): Token {
    if counts then CountStar else Star
  }

  /** The tokens up to the end of the WHERE clause. */
  function HeadTokens(what: Token, fs: seq<Filter>): seq<Token> {
    [Select, what, From, Users] + (if fs == [] then [] else [Where] + CondTokens(fs, 1))
  }

  lemma HeadText(counts: bool)
    ensures Head(if counts then "COUNT(*)" else "*") == Text([Select, What(counts), From, Users])
  {
    var ts := [Select, What(counts), From, Users];
    assert ts[1..] == [What(counts), From, Users] && ts[1..][1..] == [From, Users] && ts[1..][1..][1..] == [Users];
    assert Text([Users]) == "users";
    assert Text([From, Users]) == "FROM" + " " + "users";
    assert Text(ts[1..]) == Spell(What(counts)) + " " + ("FROM" + " " + "users");
    assert " FROM users" == " " + ("FROM" + " " + "users");
    assert "SELECT " == "SELECT" + " ";
  }

  lemma WhereText(counts: bool, fs: seq<Filter>)
    ensures Head(if counts then "COUNT(*)" else "*") + WhereClause(fs) == Text(HeadTokens(What(counts), fs))
  {
    var head := [Select, What(counts), From, Users];
    HeadText(counts);
    if fs == [] {
      assert HeadTokens(What(counts), fs) == head;
      assert Text(head) + "" == Text(head);
    } else {
      CondsText(fs, 1);
      TextAppend([Where], CondTokens(fs, 1));
      TextAppend(head, [Where] + CondTokens(fs, 1));
      WhereWord(Text(head), Text(CondTokens(fs, 1)));
    }
  }

  lemma WhereWord(a: string, b: string)
    ensures a + (" WHERE " + b) == a + " " + (Text([Where]) + " " + b)
  {
  }

  function ColumnTokens(column: string): seq<Token> {
    if column == "" then [] else [Name(column)]
  }

  function PageTokens(desc: bool, n: nat): seq<Token> {
    [if desc then Desc else Asc, Limit, Param(n + 1), Offset, Param(n + 2)]
  }

  /** The tokens of the ordering and the page. An empty column leaves none. */
  function TailTokens(column: string, desc: bool, n: nat): seq<Token> {
    [Order, By] + (ColumnTokens(column) + PageTokens(desc, n))
  }

  lemma PairText(t: Token, n: nat)
    ensures Text([t, Param(n)]) == Spell(t) + " " + Placeholder(n)
  {
  }

  lemma PageText(desc: bool, n: nat)
    ensures (if desc then " DESC" else " ASC") + " LIMIT " + Placeholder(n + 1) + " OFFSET " + Placeholder(n + 2)
            == " " + Text(PageTokens(desc, n))
  {
    var dir, l, o := [if desc then Desc else Asc], [Limit, Param(n + 1)], [Offset, Param(n + 2)];
    PairText(Limit, n + 1);
    PairText(Offset, n + 2);
    TextAppend(l, o);
    TextAppend(dir, l + o);
    assert PageTokens(desc, n) == dir + (l + o);
    assert (if desc then " DESC" else " ASC") == " " + Text(dir);
    assert " LIMIT " == " " + "LIMIT" + " ";
    assert " OFFSET " == " " + "OFFSET" + " ";
    PageSplits(Text(dir), Spell(Limit), Placeholder(n + 1), Spell(Offset), Placeholder(n + 2));
  }

  lemma PageSplits(d: string, l: string, p: string, o: string, q: string)
    ensures " " + d + (" " + l + " ") + p + (" " + o + " ") + q == " " + (d + " " + (l + " " + p + " " + (o + " " + q)))
  {
  }

  /** A paged text is its query, ORDER BY, the column and the page, with blanks between. */
  lemma PagedText(query: string, column: string, desc: bool, n: nat)
    ensures Paged(query, column, desc, n)
            == query + " " + (Text([Order, By]) + " " + (column + " " + Text(PageTokens(desc, n))))
  {
    assert [Order, By][1..] == [By];
    assert Text([Order, By]) == "ORDER" + " " + "BY";
    assert " ORDER BY " == " " + ("ORDER" + " " + "BY") + " ";
    PageText(desc, n);
    var page := Text(PageTokens(desc, n));
    PagedSplits(query, column, desc, n);
    Associate(query + " ORDER BY ", column, " " + page);
  }

  lemma PagedSplits(query: string, column: string, desc: bool, n: nat)
    ensures Paged(query, column, desc, n)
            == query + " ORDER BY " + column
               + ((if desc then " DESC" else " ASC") + " LIMIT " + Placeholder(n + 1) + " OFFSET " + Placeholder(n + 2))
  {
  }

  lemma PagedLex(query: string, column: string, desc: bool, n: nat)
    requires column == "" || column in COLUMNS
    ensures Lex(Paged(query, column, desc, n)) == Lex(query) + TailTokens(column, desc, n)
  {
    var order, page := Text([Order, By]), Text(PageTokens(desc, n));
    PagedText(query, column, desc, n);
    LexJoin(query, order + " " + (column + " " + page));
    LexJoin(order, column + " " + page);
    LexJoin(column, page);
    LexText([Order, By]);
    LexText(PageTokens(desc, n));
    if column == "" {
      assert Lex(column) == [];
    } else {
      NameIsSpelt(column);
      LexWord(column);
    }
  }

  lemma {:induction false} FilteredRead(counts: bool, conds: seq<Cond>, more: seq<Token>, rest: seq<Token>)
    requires ReadConds(more) == Some((conds, rest))
    ensures var q, tail := ReadBody(counts, [Where] + more), ReadTail(rest);
            if tail.None? then q.None? else q == Some(Query(counts, conds, tail.value))
  {
  }

  lemma PrefixRead(counts: bool, body: seq<Token>)
    ensures ReadQuery([Select, What(counts), From, Users] + body) == ReadBody(counts, body)
  {
  }

  lemma {:induction false} HeadRead(counts: bool, fs: seq<Filter>, rest: seq<Token>)
    requires rest != [] ==> rest[0].Order?
    ensures var q, tail := ReadQuery(HeadTokens(What(counts), fs) + rest), ReadTail(rest);
            if tail.None? then q.None? else q == Some(Query(counts, CondsOf(fs, 1), tail.value))
  {
    var head := [Select, What(counts), From, Users];
    if fs == [] {
      assert HeadTokens(What(counts), fs) + rest == head + rest;
      PrefixRead(counts, rest);
    } else {
      var more := CondTokens(fs, 1) + rest;
      assert HeadTokens(What(counts), fs) + rest == head + ([Where] + more);
      PrefixRead(counts, [Where] + more);
      CondsRead(fs, 1, rest);
      FilteredRead(counts, CondsOf(fs, 1), more, rest);
    }
  }

  lemma TailRead(column: string, desc: bool, n: nat)
    ensures ReadTail(TailTokens(column, desc, n))
            == if column == "" then None else Some(Some(Tail(column, desc, n + 1, n + 2)))
  {
  }

  lemma {:induction false} CondsSpelt(fs: seq<Filter>, n: nat)
    requires Whitelisted(fs)
    ensures forall i | 0 <= i < |CondTokens(fs, n)| :: Spelt(CondTokens(fs, n)[i])
    decreases |fs|
  {
    if fs != [] {
      AllowedIsColumn(fs[0].field);
      CondsSpelt(fs[1..], n + 1);
    }
  }

  lemma QueryLex(counts: bool, fs: seq<Filter>)
    requires Whitelisted(fs)
    ensures Lex(Head(if counts then "COUNT(*)" else "*") + WhereClause(fs)) == HeadTokens(What(counts), fs)
  {
    WhereText(counts, fs);
    CondsSpelt(fs, 1);
    LexText(HeadTokens(What(counts), fs));
  }

  /** How the database reads a text. */
  function Parsed(text: string): Option<Query> {
    ReadQuery(Lex(text))
  }

  /** The count query reads back as the filters, one numbered placeholder each. */
  lemma {:induction false} CountMeans(fs: seq<Filter>)
    requires Whitelisted(fs)
    ensures Parsed(CountText(fs)) == Some(Query(true, CondsOf(fs, 1), None))
  {
    QueryLex(true, fs);
    HeadRead(true, fs, []);
    assert HeadTokens(What(true), fs) + [] == HeadTokens(What(true), fs);
  }

  /** The select query reads back as the same filters, then the page at the next two placeholders;
      without a column to order by, it does not read back at all. */
  lemma {:induction false} SelectMeans(fs: seq<Filter>, column: string, desc: bool)
    requires Whitelisted(fs) && (column == "" || column in COLUMNS)
    ensures Parsed(SelectText(fs, column, desc))
            == if column == "" then None
               else Some(Query(false, CondsOf(fs, 1), Some(Tail(column, desc, |fs| + 1, |fs| + 2))))
  {
    QueryLex(false, fs);
    PagedLex(Head("*") + WhereClause(fs), column, desc, |fs|);
    HeadRead(false, fs, TailTokens(column, desc, |fs|));
    TailRead(column, desc, |fs|);
  }

  /** The text itself, for one filter. */
  lemma {:induction false} SelectTextForOne(field: string, value: string, column: string, desc: bool)
    ensures SelectText([Filter(field, value)], column, desc)
            == "SELECT * FROM users" + (" WHERE " + (field + " ILIKE " + "$1"))
               + " ORDER BY " + column + (if desc then " DESC" else " ASC") + " LIMIT " + "$2" + " OFFSET " + "$3"
    ensures FilterArgs([Filter(field, value)]) == [TextArg("%" + value + "%")]
  {
    var fs := [Filter(field, value)];
    HeadTexts();
    WhereForOne(fs[0]);
    FirstPlaceholders();
    assert SelectText(fs, column, desc) == Paged("SELECT * FROM users" + WhereClause(fs), column, desc, 1);
  }

  lemma FirstPlaceholders()
    ensures Placeholder(1) == "$1" && Placeholder(2) == "$2" && Placeholder(3) == "$3"
  {
    assert Dec(1) == "1" && Dec(2) == "2" && Dec(3) == "3";
  }

  lemma {:induction false} WhereForOne(f: Filter)
    ensures WhereClause([f]) == " WHERE " + (f.field + " ILIKE " + "$1")
  {
    FirstPlaceholders();
    assert [f][1..] == [];
    assert Conditions([f], 1) == [Condition(f, 1)];
  }
}
