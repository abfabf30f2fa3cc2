/** The records the helpdesk keeps in memory and the results its handlers return. */
module Records {

  datatype Option<+T> = None | Some(value: T) {
    /** The value if present, otherwise `default` (Python's `dict.get(key, default)`). */
    function GetOr(default: T): T {
      match this
      case Some(v) => v
      case None => default
    }
  }

  type UserId = nat
  type TicketId = nat

  /** A registered account. `password` holds the digest produced by the hasher, never the plaintext. */
  datatype User = User(id: UserId, username: string, password: string, role: string)

  /** A support ticket; `userId` is the id of the account that created it. */
  datatype Ticket = Ticket(id: TicketId, title: string, description: string, userId: UserId, status: string)

  /** What the user listing exposes about an account: everything but the password digest. */
  datatype UserView = UserView(id: UserId, username: string, role: string)

  /** The outcome of a handler, in place of an HTTP status code and a JSON body. */
  datatype Response<+T> = Ok(value: T) | Conflict | Unauthorized | Forbidden | NotFound

  const AdminRole := "admin"
  const UserRole := "user"
  const OpenStatus := "open"

  const SeedUsername := "superadmin"
  const SeedPassword := "admin123"

  /** The one property assumed of the password hasher: a digest checks against its password. */
  ghost predicate HashSound(hash: (string, string) -> string, check: (string, string) -> bool) {
    forall password, salt :: check(hash(password, salt), password)
  }

  /** The ticket after a partial update: each supplied field replaces the stored one. */
  function Patch(t: Ticket, title: Option<string>, description: Option<string>, status: Option<string>): (r: Ticket)
    ensures r.id == t.id && r.userId == t.userId
    ensures title.Some? ==> r.title == title.value
    ensures title.None? ==> r.title == t.title
    ensures description.Some? ==> r.description == description.value
    ensures description.None? ==> r.description == t.description
    ensures status.Some? ==> r.status == status.value
    ensures status.None? ==> r.status == t.status
  {
    t.(title := title.GetOr(t.title),
       description := description.GetOr(t.description),
       status := status.GetOr(t.status))
  }

  /** The public projection of an account used by the user listing. */
  function View(u: User): UserView {
    UserView(u.id, u.username, u.role)
  }
}
