/** The in-memory helpdesk: two tables, two id counters and one method per request handler. */
module Helpdesk {
  import opened Records
  import opened Tables

  class Store {
    var users: seq<User>
    var tickets: seq<Ticket>
    var userIdCounter: nat
    var ticketIdCounter: nat

    /** The password hasher, `hash(password, salt)`; the salt is its source of randomness. */
    const hash: (string, string) -> string
    /** Whether a stored digest matches a password. */
    const check: (string, string) -> bool

    ghost predicate Valid()
      reads this
    {
      && HashSound(hash, check)
      && UsersValid(users, userIdCounter)
      && TicketsValid(tickets, ticketIdCounter, users)
    }

    /** Process start: empty tables, then the seeded administrator gets id 1. */
    constructor (hash: (string, string) -> string, check: (string, string) -> bool, seedSalt: string)
      requires HashSound(hash, check)
      ensures Valid()
      ensures this.hash == hash && this.check == check
      ensures users == [User(1, SeedUsername, hash(SeedPassword, seedSalt), AdminRole)]
      ensures userIdCounter == 2
      ensures tickets == [] && ticketIdCounter == 1
    {
      this.hash := hash;
      this.check := check;
      users := [User(1, SeedUsername, hash(SeedPassword, seedSalt), AdminRole)];
      userIdCounter := 2;
      tickets := [];
      ticketIdCounter := 1;
    }

    /** `load_user`: the account with this id, if any. */
    method LoadUser(id: UserId) returns (u: Option<User>)
      ensures u.Some? <==> Registered(users, id)
      ensures u.Some? ==> u.value in users && u.value.id == id
    {
      var i := 0;
      while i < |users|
        invariant 0 <= i <= |users|
        invariant forall j :: 0 <= j < i ==> users[j].id != id
      {
        if users[i].id == id {
          return Some(users[i]);
        }
        i := i + 1;
      }
      return None;
    }

    /** `current_user` behind `login_required`: the session's account, or nothing. */
    method CurrentUser(principal: Option<UserId>) returns (u: Option<User>)
      ensures u.Some? <==> SignedIn(users, principal)
      ensures u.Some? ==> u.value in users && u.value.id == principal.value
    {
      if principal.None? {
        return None;
      }
      u := LoadUser(principal.value);
    }

    /** `register`: a new account with role "user", unless the username is taken. */
    method Register(username: string, password: string, salt: string) returns (r: Response<string>)
      requires Valid()
      modifies this
      ensures Valid()
      ensures tickets == old(tickets) && ticketIdCounter == old(ticketIdCounter)
      ensures UsernameTaken(old(users), username) ==>
        r == Conflict && users == old(users) && userIdCounter == old(userIdCounter)
      ensures !UsernameTaken(old(users), username) ==>
        && r == Ok(UserRole)
        && users == old(users) + [User(old(userIdCounter), username, hash(password, salt), UserRole)]
        && userIdCounter == old(userIdCounter) + 1
    {
      var i := 0;
      while i < |users|
        invariant 0 <= i <= |users|
        invariant forall j :: 0 <= j < i ==> users[j].username != username
      {
        if users[i].username == username {
          return Conflict;
        }
        i := i + 1;
      }
      var account := User(userIdCounter, username, hash(password, salt), UserRole);
      ghost var before := users;
      users := users + [account];
      userIdCounter := userIdCounter + 1;
      forall k | 0 <= k < |tickets|
        ensures Registered(users, tickets[k].userId)
      {
        assert Registered(before, tickets[k].userId);
        var j :| 0 <= j < |before| && before[j].id == tickets[k].userId;
        assert users[j] == before[j];
      }
      r := Ok(UserRole);
    }

    /** `login`: the session moves to the account whose username and password match. */
    method Login(principal: Option<UserId>, username: string, password: string)
      returns (r: Response<string>, session: Option<UserId>)
      requires Valid()
      ensures r.Ok? <==>
        exists k :: 0 <= k < |users| && users[k].username == username && check(users[k].password, password)
      ensures forall k :: 0 <= k < |users| && users[k].username == username && check(users[k].password, password) ==>
        r == Ok(users[k].role) && session == Some(users[k].id)
      ensures !r.Ok? ==> r == Unauthorized && session == principal
    {
      var i := 0;
      while i < |users|
        invariant 0 <= i <= |users|
        invariant forall j :: 0 <= j < i ==> !(users[j].username == username && check(users[j].password, password))
      {
        if users[i].username == username && check(users[i].password, password) {
          return Ok(users[i].role), Some(users[i].id);
        }
        i := i + 1;
      }
      return Unauthorized, principal;
    }

    /** `logout`: a signed-in session is cleared. */
    method Logout(principal: Option<UserId>) returns (r: Response<()>, session: Option<UserId>)
      ensures SignedIn(users, principal) ==> r == Ok(()) && session == None
      ensures !SignedIn(users, principal) ==> r == Unauthorized && session == principal
    {
      var me := CurrentUser(principal);
      if me.None? {
        return Unauthorized, principal;
      }
      return Ok(()), None;
    }

    /** `create_ticket`: an open ticket owned by the caller, with the next ticket id. */
    method CreateTicket(principal: Option<UserId>, title: string, description: string) returns (r: Response<TicketId>)
      requires Valid()
      modifies this
      ensures Valid()
      ensures users == old(users) && userIdCounter == old(userIdCounter)
      ensures !SignedIn(old(users), principal) ==>
        r == Unauthorized && tickets == old(tickets) && ticketIdCounter == old(ticketIdCounter)
      ensures SignedIn(old(users), principal) ==>
        && r == Ok(old(ticketIdCounter))
        && tickets == old(tickets) + [Ticket(old(ticketIdCounter), title, description, principal.value, OpenStatus)]
        && ticketIdCounter == old(ticketIdCounter) + 1
    {
      var me := CurrentUser(principal);
      if me.None? {
        return Unauthorized;
      }
      var id := ticketIdCounter;
      ghost var j :| 0 <= j < |users| && users[j] == me.value;
      tickets := tickets + [Ticket(id, title, description, me.value.id, OpenStatus)];
      ticketIdCounter := ticketIdCounter + 1;
      r := Ok(id);
    }

    /** `get_tickets`: the whole table for an administrator, otherwise the caller's own tickets. */
    method GetTickets(principal: Option<UserId>) returns (r: Response<seq<Ticket>>)
      requires Valid()
      ensures !SignedIn(users, principal) ==> r == Unauthorized
      ensures SignedIn(users, principal) && IsAdmin(users, principal.value) ==> r == Ok(tickets)
      ensures SignedIn(users, principal) && !IsAdmin(users, principal.value) ==>
        r == Ok(OwnedBy(tickets, principal.value))
    {
      var me := CurrentUser(principal);
      if me.None? {
        return Unauthorized;
      }
      AdminByRecord(users, userIdCounter, me.value);
      if me.value.role == AdminRole {
        return Ok(tickets);
      }
      return Ok(OwnedBy(tickets, me.value.id));
    }

    /** `get_ticket`: the ticket if it exists and the caller may see it; NotFound hides which of the two failed. */
    method GetTicket(principal: Option<UserId>, id: TicketId) returns (r: Response<Ticket>)
      requires Valid()
      ensures !SignedIn(users, principal) ==> r == Unauthorized
      ensures SignedIn(users, principal) && !TicketExists(tickets, id) ==> r == NotFound
      ensures SignedIn(users, principal) ==>
        forall k :: 0 <= k < |tickets| && tickets[k].id == id ==>
          r == if MayAccess(users, principal.value, tickets[k]) then Ok(tickets[k]) else NotFound
    {
      var me := CurrentUser(principal);
      if me.None? {
        return Unauthorized;
      }
      AdminByRecord(users, userIdCounter, me.value);
      var admin := me.value.role == AdminRole;
      var i := 0;
      while i < |tickets|
        invariant 0 <= i <= |tickets|
        invariant forall j :: 0 <= j < i ==> !(tickets[j].id == id && MayAccess(users, me.value.id, tickets[j]))
      {
        if tickets[i].id == id && (admin || tickets[i].userId == me.value.id) {
          return Ok(tickets[i]);
        }
        i := i + 1;
      }
      return NotFound;
    }

    /** `update_ticket`: owner or administrator overwrites the supplied fields of one ticket. */
    method UpdateTicket(principal: Option<UserId>, id: TicketId,
                        title: Option<string>, description: Option<string>, status: Option<string>)
      returns (r: Response<()>)
      requires Valid()
      modifies this
      ensures Valid()
      ensures users == old(users) && userIdCounter == old(userIdCounter) && ticketIdCounter == old(ticketIdCounter)
      ensures !SignedIn(old(users), principal) ==> r == Unauthorized && tickets == old(tickets)
      ensures SignedIn(old(users), principal) && !TicketExists(old(tickets), id) ==>
        r == NotFound && tickets == old(tickets)
      ensures SignedIn(old(users), principal) ==>
        forall k :: 0 <= k < |old(tickets)| && old(tickets)[k].id == id ==>
          if MayAccess(old(users), principal.value, old(tickets)[k])
          then r == Ok(()) && tickets == old(tickets)[k := Patch(old(tickets)[k], title, description, status)]
          else r == Forbidden && tickets == old(tickets)
    {
      var me := CurrentUser(principal);
      if me.None? {
        return Unauthorized;
      }
      AdminByRecord(users, userIdCounter, me.value);
      var i := 0;
      while i < |tickets|
        invariant 0 <= i <= |tickets|
        invariant forall j :: 0 <= j < i ==> tickets[j].id != id
      {
        if tickets[i].id == id {
          if me.value.role != AdminRole && tickets[i].userId != me.value.id {
            return Forbidden;
          }
          tickets := tickets[i := Patch(tickets[i], title, description, status)];
          return Ok(());
        }
        i := i + 1;
      }
      return NotFound;
    }

    /** `delete_ticket`: owner or administrator removes one ticket; the counter is left alone. */
    method DeleteTicket(principal: Option<UserId>, id: TicketId) returns (r: Response<()>)
      requires Valid()
      modifies this
      ensures Valid()
      ensures users == old(users) && userIdCounter == old(userIdCounter) && ticketIdCounter == old(ticketIdCounter)
      ensures !SignedIn(old(users), principal) ==> r == Unauthorized && tickets == old(tickets)
      ensures SignedIn(old(users), principal) && !TicketExists(old(tickets), id) ==>
        r == NotFound && tickets == old(tickets)
      ensures SignedIn(old(users), principal) ==>
        forall k :: 0 <= k < |old(tickets)| && old(tickets)[k].id == id ==>
          if MayAccess(old(users), principal.value, old(tickets)[k])
          then r == Ok(()) && tickets == old(tickets)[..k] + old(tickets)[k + 1..]
          else r == Forbidden && tickets == old(tickets)
      ensures r.Ok? ==> !TicketExists(tickets, id)
    {
      var me := CurrentUser(principal);
      if me.None? {
        return Unauthorized;
      }
      AdminByRecord(users, userIdCounter, me.value);
      var i := 0;
      while i < |tickets|
        invariant 0 <= i <= |tickets|
        invariant forall j :: 0 <= j < i ==> tickets[j].id != id
      {
        if tickets[i].id == id {
          if me.value.role != AdminRole && tickets[i].userId != me.value.id {
            return Forbidden;
          }
          WithoutIdRemovesOne(tickets, i);
          tickets := WithoutId(tickets, id);
          return Ok(());
        }
        i := i + 1;
      }
      return NotFound;
    }

    /** `get_users`: every account's id, username and role, for administrators only. */
    method GetUsers(principal: Option<UserId>) returns (r: Response<seq<UserView>>)
      requires Valid()
      ensures !SignedIn(users, principal) ==> r == Unauthorized
      ensures SignedIn(users, principal) && !IsAdmin(users, principal.value) ==> r == Forbidden
      ensures SignedIn(users, principal) && IsAdmin(users, principal.value) ==> r == Ok(Views(users))
    {
      var me := CurrentUser(principal);
      if me.None? {
        return Unauthorized;
      }
      AdminByRecord(users, userIdCounter, me.value);
      if me.value.role != AdminRole {
        return Forbidden;
      }
      return Ok(Views(users));
    }

    /** `update_user`: an administrator sets one account's role to any string. */
    method UpdateUser(principal: Option<UserId>, id: UserId, role: Option<string>) returns (r: Response<()>)
      requires Valid()
      modifies this
      ensures Valid()
      ensures tickets == old(tickets) && userIdCounter == old(userIdCounter) && ticketIdCounter == old(ticketIdCounter)
      ensures !SignedIn(old(users), principal) ==> r == Unauthorized && users == old(users)
      ensures SignedIn(old(users), principal) && !IsAdmin(old(users), principal.value) ==>
        r == Forbidden && users == old(users)
      ensures SignedIn(old(users), principal) && IsAdmin(old(users), principal.value) && !Registered(old(users), id) ==>
        r == NotFound && users == old(users)
      ensures SignedIn(old(users), principal) && IsAdmin(old(users), principal.value) ==>
        forall k :: 0 <= k < |old(users)| && old(users)[k].id == id ==>
          r == Ok(()) && users == old(users)[k := old(users)[k].(role := role.GetOr(old(users)[k].role))]
    {
      var me := CurrentUser(principal);
      if me.None? {
        return Unauthorized;
      }
      AdminByRecord(users, userIdCounter, me.value);
      if me.value.role != AdminRole {
        return Forbidden;
      }
      var i := 0;
      while i < |users|
        invariant 0 <= i <= |users|
        invariant forall j :: 0 <= j < i ==> users[j].id != id
      {
        if users[i].id == id {
          SetRoleKeepsValid(users, userIdCounter, tickets, ticketIdCounter, i, role.GetOr(users[i].role));
          users := users[i := users[i].(role := role.GetOr(users[i].role))];
          return Ok(());
        }
        i := i + 1;
      }
      return NotFound;
    }
  }
}
