/** The user entity, the errors of the domain, and the three keys a user is looked up by. */
module Domain {

  datatype Option<+T> = None | Some(value: T)

  datatype Result<+T> = Ok(value: T) | Err(error: Error)

  /** The sentinel an error carries; wrapping an error keeps its sentinel.
      A failed cache fill and a failed cache invalidation are reported apart. */
  datatype Error =
    | ErrNotFound
    | ErrEmailTaken
    | ErrNicknameTaken
    | ErrDatabase
    | ErrHash
    | ErrFill
    | ErrInvalidate

  newtype Byte = x: int | 0 <= x < 256

  /** A UUID is sixteen bytes. */
  type Uuid = b: seq<Byte> | |b| == 16 witness seq(16, _ => 0)

  datatype User = User(
    id: Uuid,
    firstName: string,
    lastName: string,
    nickname: string,
    password: string,
    email: string,
    country: string,
    createdAt: int,
    updatedAt: int)

  /** What survives a trip through JSON: everything but the password. */
  function Erase(u: User): User {
    u.(password := "")
  }

  datatype Key = ById(id: Uuid) | ByEmail(email: string) | ByNickname(nickname: string)

  /** The user answers a lookup by this key. */
  predicate Owns(u: User, k: Key) {
    match k
    case ById(id) => u.id == id
    case ByEmail(email) => u.email == email
    case ByNickname(nickname) => u.nickname == nickname
  }

  /** The three keys under which a user is cached. */
  function KeysOf(u: User): (ks: set<Key>)
    ensures forall k :: k in ks <==> Owns(u, k)
  {
    {ById(u.id), ByEmail(u.email), ByNickname(u.nickname)}
  }
}
