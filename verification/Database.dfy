/** The users table: a primary key and two UNIQUE columns. */
module Database {
  import opened Domain

  type Table = map<Uuid, User>

  /** Rows sit under their own id, and no two rows share an email or a nickname. */
  ghost predicate TableOk(t: Table) {
    && (forall id | id in t :: t[id].id == id)
    && (forall a, b | a in t && b in t && a != b ::
          t[a].email != t[b].email && t[a].nickname != t[b].nickname)
  }

  /** The row that a SELECT on one of the three unique columns finds. */
  ghost function Find(t: Table, k: Key): (r: Option<User>)
    ensures r.Some? ==> exists id :: id in t && t[id] == r.value && Owns(r.value, k)
    ensures r.None? ==> forall id | id in t :: !Owns(t[id], k)
  {
    if exists id :: id in t && Owns(t[id], k) then
      var id :| id in t && Owns(t[id], k);
      Some(t[id])
    else
      None
  }

  /** In a well-formed table a key determines its row. */
  lemma FindIs(t: Table, k: Key, id: Uuid)
    requires TableOk(t) && id in t && Owns(t[id], k)
    ensures Find(t, k) == Some(t[id])
  {
  }

  ghost function Select(t: Table, k: Key, fails: bool): Result<User> {
    if fails then Err(ErrDatabase)
    else match Find(t, k)
      case None => Err(ErrNotFound)
      case Some(u) => Ok(u)
  }

  /** Another row already holds the value of a UNIQUE column. */
  predicate NicknameClash(t: Table, u: User) {
    exists id | id in t :: id != u.id && t[id].nickname == u.nickname
  }

  predicate EmailClash(t: Table, u: User) {
    exists id | id in t :: id != u.id && t[id].email == u.email
  }

  /** INSERT: constraints are checked in the order in which their indexes were created. */
  function InsertRow(t: Table, u: User, fails: bool): Result<Table> {
    if fails || u.id in t then Err(ErrDatabase)
    else if NicknameClash(t, u) then Err(ErrNicknameTaken)
    else if EmailClash(t, u) then Err(ErrEmailTaken)
    else Ok(t[u.id := u])
  }

  /** The row an UPDATE leaves: id and created_at stay, updated_at is the repository's clock. */
  function Rewritten(row: User, u: User, now: int): User {
    u.(id := row.id, createdAt := row.createdAt, updatedAt := now)
  }

  /** UPDATE: without a row to change, no constraint is checked. */
  function UpdateRow(t: Table, u: User, now: int, fails: bool): Result<Table> {
    if fails then Err(ErrDatabase)
    else if u.id !in t then Err(ErrNotFound)
    else if NicknameClash(t, u) then Err(ErrNicknameTaken)
    else if EmailClash(t, u) then Err(ErrEmailTaken)
    else Ok(t[u.id := Rewritten(t[u.id], u, now)])
  }

  function DeleteRow(t: Table, id: Uuid, fails: bool): Result<Table> {
    if fails then Err(ErrDatabase)
    else if id !in t then Err(ErrNotFound)
    else Ok(t - {id})
  }

  /** The constraint checks admit a row exactly when the table would stay well formed. */
  lemma InsertAdmitsExactly(t: Table, u: User)
    requires TableOk(t)
    ensures InsertRow(t, u, false).Ok? <==> u.id !in t && TableOk(t[u.id := u])
  {
    var t' := t[u.id := u];
    if u.id !in t && TableOk(t') {
      assert forall id | id in t :: id in t' && t'[id] == t[id];
      assert t'[u.id] == u;
    }
  }

  lemma UpdateAdmitsExactly(t: Table, u: User, now: int)
    requires TableOk(t)
    ensures UpdateRow(t, u, now, false).Ok? <==>
            u.id in t && TableOk(t[u.id := Rewritten(t[u.id], u, now)])
  {
    if u.id in t {
      var row := Rewritten(t[u.id], u, now);
      var t' := t[u.id := row];
      if TableOk(t') {
        assert forall id | id in t && id != u.id :: id in t' && t'[id] == t[id];
        assert t'[u.id] == row;
      }
    }
  }

  lemma DeleteKeepsTableOk(t: Table, id: Uuid)
    requires TableOk(t)
    ensures TableOk(t - {id})
  {
  }

  // ---- The repository object -------------------------------------------------------------------

  /** The constraints of the table, by the index that enforces each. */
  datatype Constraint = PrimaryKey | NicknameKey | EmailKey

  /** How the repository reads the name of a violated constraint. */
  function Violation(c: Constraint): Error {
    match c
    case PrimaryKey => ErrDatabase
    case NicknameKey => ErrNicknameTaken
    case EmailKey => ErrEmailTaken
  }

  /** A statement's effect on the table, and its answer, from the functional description. */
  ghost predicate Executed(t: Table, t': Table, result: Result<Table>, r: Result<()>) {
    if result.Ok? then r == Ok(()) && t' == result.value else r == Err(result.error) && t' == t
  }

  class UserRepository {
    var table: Table

    constructor ()
      ensures table == map[] && TableOk(table)
    {
      table := map[];
    }

    /** The first constraint that the row breaks, its own id aside. */
    method CheckUnique(u: User) returns (broken: Option<Constraint>)
      ensures broken == if NicknameClash(table, u) then Some(NicknameKey)
                        else if EmailClash(table, u) then Some(EmailKey)
                        else None
    {
      if exists id | id in table :: id != u.id && table[id].nickname == u.nickname {
        return Some(NicknameKey);
      }
      if exists id | id in table :: id != u.id && table[id].email == u.email {
        return Some(EmailKey);
      }
      return None;
    }

    method Create(u: User, fails: bool) returns (r: Result<()>)
      requires TableOk(table)
      modifies this
      ensures Executed(old(table), table, InsertRow(old(table), u, fails), r)
      ensures TableOk(table)
    {
      if fails {
        return Err(ErrDatabase);
      }
      if u.id in table {
        return Err(Violation(PrimaryKey));
      }
      var broken := CheckUnique(u);
      if broken.Some? {
        return Err(Violation(broken.value));
      }
      InsertAdmitsExactly(table, u);
      table := table[u.id := u];
      return Ok(());
    }

    method GetByID(id: Uuid, fails: bool) returns (r: Result<User>)
      requires TableOk(table)
      ensures r == Select(table, ById(id), fails)
    {
      if fails {
        return Err(ErrDatabase);
      }
      if id !in table {
        return Err(ErrNotFound);
      }
      FindIs(table, ById(id), id);
      return Ok(table[id]);
    }

    method GetByEmail(email: string, fails: bool) returns (r: Result<User>)
      requires TableOk(table)
      ensures r == Select(table, ByEmail(email), fails)
    {
      if fails {
        return Err(ErrDatabase);
      }
      if id :| id in table && table[id].email == email {
        FindIs(table, ByEmail(email), id);
        return Ok(table[id]);
      }
      return Err(ErrNotFound);
    }

    method GetByNickname(nickname: string, fails: bool) returns (r: Result<User>)
      requires TableOk(table)
      ensures r == Select(table, ByNickname(nickname), fails)
    {
      if fails {
        return Err(ErrDatabase);
      }
      if id :| id in table && table[id].nickname == nickname {
        FindIs(table, ByNickname(nickname), id);
        return Ok(table[id]);
      }
      return Err(ErrNotFound);
    }

    /** No row to change is seen only after the statement, as zero rows affected. */
    method Update(u: User, now: int, fails: bool) returns (r: Result<()>)
      requires TableOk(table)
      modifies this
      ensures Executed(old(table), table, UpdateRow(old(table), u, now, fails), r)
      ensures TableOk(table)
    {
      if fails {
        return Err(ErrDatabase);
      }
      if u.id !in table {
        return Err(ErrNotFound);
      }
      var broken := CheckUnique(u);
      if broken.Some? {
        return Err(Violation(broken.value));
      }
      UpdateAdmitsExactly(table, u, now);
      var row := table[u.id];
      row := row.(firstName := u.firstName, lastName := u.lastName, nickname := u.nickname);
      row := row.(password := u.password, email := u.email, country := u.country, updatedAt := now);
      table := table[u.id := row.(id := table[u.id].id)];
      return Ok(());
    }

    method Delete(id: Uuid, fails: bool) returns (r: Result<()>)
      requires TableOk(table)
      modifies this
      ensures Executed(old(table), table, DeleteRow(old(table), id, fails), r)
      ensures TableOk(table)
    {
      if fails {
        return Err(ErrDatabase);
      }
      if id !in table {
        return Err(ErrNotFound);
      }
      DeleteKeepsTableOk(table, id);
      table := table - {id};
      return Ok(());
    }
  }
}
