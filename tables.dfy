/** The two tables as values: their invariants, the access predicates and the list comprehensions. */
module Tables {
  import opened Records

  /** Some account in the table has this id. */
  ghost predicate Registered(users: seq<User>, id: UserId) {
    exists k :: 0 <= k < |users| && users[k].id == id
  }

  /** Some account in the table has this username. */
  ghost predicate UsernameTaken(users: seq<User>, username: string) {
    exists k :: 0 <= k < |users| && users[k].username == username
  }

  /** The account with this id has the administrator role. */
  ghost predicate IsAdmin(users: seq<User>, id: UserId) {
    exists k :: 0 <= k < |users| && users[k].id == id && users[k].role == AdminRole
  }

  /** The session names an account that is in the table (flask_login's `login_required`). */
  ghost predicate SignedIn(users: seq<User>, principal: Option<UserId>) {
    principal.Some? && Registered(users, principal.value)
  }

  /** The caller may see, change or delete the ticket: an administrator, or its owner. */
  ghost predicate MayAccess(users: seq<User>, caller: UserId, t: Ticket) {
    IsAdmin(users, caller) || t.userId == caller
  }

  /** Some ticket in the table has this id. */
  ghost predicate TicketExists(tickets: seq<Ticket>, id: TicketId) {
    exists k :: 0 <= k < |tickets| && tickets[k].id == id
  }

  /** Account ids increase along the table, lie in [1, next), and usernames are pairwise distinct. */
  ghost predicate UsersValid(users: seq<User>, next: nat) {
    && 1 <= next
    && (forall i, j :: 0 <= i < j < |users| ==> users[i].id < users[j].id)
    && (forall i :: 0 <= i < |users| ==> 1 <= users[i].id < next)
    && (forall i, j :: 0 <= i < j < |users| ==> users[i].username != users[j].username)
  }

  /** Ticket ids increase along the table and lie in [1, next); every owner is a registered account. */
  ghost predicate TicketsValid(tickets: seq<Ticket>, next: nat, users: seq<User>) {
    && 1 <= next
    && TicketIdsIncreasing(tickets)
    && (forall i :: 0 <= i < |tickets| ==> 1 <= tickets[i].id < next)
    && (forall i :: 0 <= i < |tickets| ==> Registered(users, tickets[i].userId))
  }

  ghost predicate TicketIdsIncreasing(tickets: seq<Ticket>) {
    forall i, j :: 0 <= i < j < |tickets| ==> tickets[i].id < tickets[j].id
  }

  /** `a` is `b` with some elements dropped, the rest kept in order. */
  ghost predicate Subsequence<T>(a: seq<T>, b: seq<T>)
    decreases |b|
  {
    if a == [] then true
    else if b == [] then false
    else (a[0] == b[0] && Subsequence(a[1..], b[1..])) || Subsequence(a, b[1..])
  }

  /** `[t for t in tickets if t['user_id'] == owner]`. */
  function OwnedBy(tickets: seq<Ticket>, owner: UserId): (r: seq<Ticket>)
    ensures |r| <= |tickets|
    ensures forall k :: 0 <= k < |r| ==> r[k].userId == owner && r[k] in tickets
  {
    if tickets == [] then []
    else if tickets[0].userId == owner then [tickets[0]] + OwnedBy(tickets[1..], owner)
    else OwnedBy(tickets[1..], owner)
  }

  /** `[t for t in tickets if t['id'] != id]`. */
  function WithoutId(tickets: seq<Ticket>, id: TicketId): (r: seq<Ticket>)
    ensures |r| <= |tickets|
    ensures forall k :: 0 <= k < |r| ==> r[k].id != id
  {
    if tickets == [] then []
    else if tickets[0].id != id then [tickets[0]] + WithoutId(tickets[1..], id)
    else WithoutId(tickets[1..], id)
  }

  /** `[{'id': u.id, 'username': u.username, 'role': u.role} for u in users]`. */
  function Views(users: seq<User>): (r: seq<UserView>)
    ensures |r| == |users|
    ensures forall k :: 0 <= k < |r| ==>
      r[k].id == users[k].id && r[k].username == users[k].username && r[k].role == users[k].role
  {
    seq(|users|, i requires 0 <= i < |users| => View(users[i]))
  }

  /** Every ticket of `owner` in the table is in its listing: with the ensures of OwnedBy, exactly them. */
  lemma {:induction false} OwnedByComplete(tickets: seq<Ticket>, owner: UserId)
    ensures forall t :: t in tickets && t.userId == owner ==> t in OwnedBy(tickets, owner)
  {
    if tickets != [] {
      OwnedByComplete(tickets[1..], owner);
      forall t | t in tickets && t.userId == owner
        ensures t in OwnedBy(tickets, owner)
      {
        if t != tickets[0] {
          assert t in tickets[1..];
        }
      }
    }
  }

  /** A user's listing keeps the table's insertion order. */
  lemma {:induction false} OwnedByInOrder(tickets: seq<Ticket>, owner: UserId)
    ensures Subsequence(OwnedBy(tickets, owner), tickets)
  {
    if tickets != [] {
      OwnedByInOrder(tickets[1..], owner);
      var rest := OwnedBy(tickets[1..], owner);
      if tickets[0].userId == owner {
        assert OwnedBy(tickets, owner) == [tickets[0]] + rest;
        assert ([tickets[0]] + rest)[1..] == rest;
      } else {
        assert OwnedBy(tickets, owner) == rest;
        if rest != [] {
          assert Subsequence(rest, tickets[1..]);
        }
      }
    }
  }

  /** Listings of a table without tickets of `owner` are empty, whatever else the table holds. */
  lemma {:induction false} OwnedByNone(tickets: seq<Ticket>, owner: UserId)
    requires forall k :: 0 <= k < |tickets| ==> tickets[k].userId != owner
    ensures OwnedBy(tickets, owner) == []
  {
    if tickets != [] {
      OwnedByNone(tickets[1..], owner);
    }
  }

  /** Filtering out an id that no ticket has leaves the table as it is. */
  lemma {:induction false} WithoutAbsentId(tickets: seq<Ticket>, id: TicketId)
    requires forall k :: 0 <= k < |tickets| ==> tickets[k].id != id
    ensures WithoutId(tickets, id) == tickets
  {
    if tickets != [] {
      WithoutAbsentId(tickets[1..], id);
      assert tickets == [tickets[0]] + tickets[1..];
    }
  }

  /** Filtering out an id that only ticket `k` has removes exactly that ticket. */
  lemma {:induction false} WithoutUniqueId(tickets: seq<Ticket>, k: nat)
    requires k < |tickets|
    requires forall i :: 0 <= i < |tickets| && i != k ==> tickets[i].id != tickets[k].id
    ensures WithoutId(tickets, tickets[k].id) == tickets[..k] + tickets[k + 1..]
  {
    var id := tickets[k].id;
    var rest := tickets[1..];
    if k == 0 {
      forall i | 0 <= i < |rest| ensures rest[i].id != id {
        assert rest[i] == tickets[i + 1];
      }
      WithoutAbsentId(rest, id);
      assert tickets[..0] + tickets[1..] == rest;
    } else {
      assert rest[k - 1] == tickets[k];
      forall i | 0 <= i < |rest| && i != k - 1 ensures rest[i].id != rest[k - 1].id {
        assert rest[i] == tickets[i + 1];
      }
      WithoutUniqueId(rest, k - 1);
      assert tickets[0].id != id;
      assert WithoutId(tickets, id) == [tickets[0]] + WithoutId(rest, id);
      assert rest[..k - 1] == tickets[1..k] && rest[k..] == tickets[k + 1..];
      assert [tickets[0]] + tickets[1..k] == tickets[..k];
    }
  }

  /** With increasing ids, filtering out the id of ticket `k` removes exactly that ticket. */
  lemma WithoutIdRemovesOne(tickets: seq<Ticket>, k: nat)
    requires TicketIdsIncreasing(tickets)
    requires k < |tickets|
    ensures WithoutId(tickets, tickets[k].id) == tickets[..k] + tickets[k + 1..]
  {
    forall i | 0 <= i < |tickets| && i != k ensures tickets[i].id != tickets[k].id {
      if i < k {
        assert tickets[i].id < tickets[k].id;
      } else {
        assert tickets[k].id < tickets[i].id;
      }
    }
    WithoutUniqueId(tickets, k);
  }

  /** The user listing reveals nothing about passwords: tables that differ only in digests list alike. */
  lemma ViewsIgnorePasswords(a: seq<User>, b: seq<User>)
    requires |a| == |b|
    requires forall k :: 0 <= k < |a| ==> a[k].(password := b[k].password) == b[k]
    ensures Views(a) == Views(b)
  {
    forall k | 0 <= k < |a|
      ensures Views(a)[k] == Views(b)[k]
    {
      assert a[k].(password := b[k].password) == b[k];
    }
  }

  /** Changing one account's role keeps both tables' invariants: ids and usernames stay as they were. */
  lemma SetRoleKeepsValid(users: seq<User>, next: nat, tickets: seq<Ticket>, ticketNext: nat, k: nat, role: string)
    requires UsersValid(users, next) && TicketsValid(tickets, ticketNext, users)
    requires k < |users|
    ensures UsersValid(users[k := users[k].(role := role)], next)
    ensures TicketsValid(tickets, ticketNext, users[k := users[k].(role := role)])
  {
    var updated := users[k := users[k].(role := role)];
    forall i | 0 <= i < |tickets|
      ensures Registered(updated, tickets[i].userId)
    {
      var j :| 0 <= j < |users| && users[j].id == tickets[i].userId;
      assert updated[j].id == users[j].id;
    }
  }

  /** With distinct ids, an account in the table is an administrator iff its record says so. */
  lemma AdminByRecord(users: seq<User>, next: nat, u: User)
    requires UsersValid(users, next)
    requires u in users
    ensures IsAdmin(users, u.id) <==> u.role == AdminRole
  {
    var j :| 0 <= j < |users| && users[j] == u;
    if IsAdmin(users, u.id) {
      var k :| 0 <= k < |users| && users[k].id == u.id && users[k].role == AdminRole;
      assert !(j < k) && !(k < j);
    }
  }
}
