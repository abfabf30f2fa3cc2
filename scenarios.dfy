/** Request sequences from the test suite, and a few that go beyond it, each run against a freshly started store. */
module Scenarios {
  import opened Records
  import opened Tables
  import opened Helpdesk

  /** A store at process start, with a stand-in hasher whose digest is the password itself. */
  method Start() returns (s: Store)
    ensures fresh(s) && s.Valid()
    ensures s.users == [User(1, SeedUsername, SeedPassword, AdminRole)] && s.userIdCounter == 2
    ensures s.tickets == [] && s.ticketIdCounter == 1
    ensures forall d, p :: s.check(d, p) <==> d == p
    ensures forall p, salt :: s.hash(p, salt) == p
  {
    var hash := (p: string, salt: string) => p;
    var check := (d: string, p: string) => d == p;
    s := new Store(hash, check, "seed-salt");
  }

  /** Registering a fresh username and then logging in with its password signs that new account in. */
  method SignUp(s: Store, principal: Option<UserId>, username: string, password: string, salt: string)
    returns (session: Option<UserId>)
    requires s.Valid() && !UsernameTaken(s.users, username)
    modifies s
    ensures s.Valid()
    ensures s.users == old(s.users) + [User(old(s.userIdCounter), username, s.hash(password, salt), UserRole)]
    ensures s.userIdCounter == old(s.userIdCounter) + 1
    ensures s.tickets == old(s.tickets) && s.ticketIdCounter == old(s.ticketIdCounter)
    ensures session == Some(old(s.userIdCounter))
  {
    var _ := s.Register(username, password, salt);
    var k := |s.users| - 1;
    assert s.users[k].username == username && s.check(s.users[k].password, password);
    var _, signedIn := s.Login(principal, username, password);
    session := signedIn;
  }

  /** The same username registers once; the second attempt is a conflict and adds nobody. */
  method RegisterTwice() returns (first: Response<string>, second: Response<string>, accounts: nat)
    ensures first == Ok(UserRole) && second == Conflict && accounts == 2
  {
    var s := Start();
    first := s.Register("testuser", "12345", "salt-1");
    second := s.Register("testuser", "other", "salt-2");
    assert s.users[1].username == "testuser";
    accounts := |s.users|;
  }

  /** A freshly registered account logs in with its password and gets role "user". */
  method RegisterThenLogin() returns (r: Response<string>, session: Option<UserId>)
    ensures r == Ok(UserRole) && session == Some(2)
  {
    var s := Start();
    var _ := s.Register("user1", "12345", "salt");
    assert s.users[1].username == "user1" && s.check(s.users[1].password, "12345");
    r, session := s.Login(None, "user1", "12345");
  }

  /** A wrong password and an unknown username give the same answer, and the session stays as it was. */
  method BadCredentials() returns (wrong: Response<string>, unknown: Response<string>, session: Option<UserId>)
    ensures wrong == Unauthorized && unknown == Unauthorized && session == None
  {
    var s := Start();
    var _ := s.Register("user1", "12345", "salt");
    wrong, session := s.Login(None, "user1", "54321");
    unknown, session := s.Login(session, "nobody", "12345");
  }

  /** The seeded administrator logs in with the documented password. */
  method SeededAdminLogin() returns (r: Response<string>, session: Option<UserId>)
    ensures r == Ok(AdminRole) && session == Some(1)
  {
    var s := Start();
    assert s.users[0].username == SeedUsername && s.check(s.users[0].password, SeedPassword);
    r, session := s.Login(None, SeedUsername, SeedPassword);
  }

  /** A signed-in user's first ticket gets id 1 and is the only ticket in the table. */
  method CreateOneTicket() returns (r: Response<TicketId>, count: nat)
    ensures r == Ok(1) && count == 1
  {
    var s := Start();
    var session := SignUp(s, None, "user2", "12345", "salt");
    assert s.users[1].id == 2;
    r := s.CreateTicket(session, "Test ticket", "Help me");
    count := |s.tickets|;
  }

  /** A second user's listing does not show the first user's ticket. */
  method UserSeesOnlyOwnTickets() returns (other: Response<seq<Ticket>>)
    ensures other == Ok([])
  {
    var s := Start();
    var first := SignUp(s, None, "user3", "12345", "salt");
    assert s.users[1].id == 2;
    var _ := s.CreateTicket(first, "Ticket 1", "test");
    assert s.tickets == [Ticket(1, "Ticket 1", "test", 2, OpenStatus)];
    var _, out := s.Logout(first);
    var second := SignUp(s, out, "user4", "12345", "salt");
    assert s.users[2] == User(3, "user4", "12345", UserRole);
    AdminByRecord(s.users, s.userIdCounter, s.users[2]);
    OwnedByNone(s.tickets, 3);
    other := s.GetTickets(second);
  }

  /** The administrator's listing holds every user's tickets, in creation order. */
  method AdminSeesAllTickets() returns (all: Response<seq<Ticket>>)
    ensures all == Ok([Ticket(1, "First", "test", 2, OpenStatus), Ticket(2, "Second", "test", 3, OpenStatus)])
  {
    var s := Start();
    var first := SignUp(s, None, "user3", "12345", "salt");
    assert s.users[1].id == 2;
    var _ := s.CreateTicket(first, "First", "test");
    var second := SignUp(s, first, "user4", "12345", "salt");
    assert s.users[2].id == 3;
    var _ := s.CreateTicket(second, "Second", "test");
    assert s.tickets == [Ticket(1, "First", "test", 2, OpenStatus), Ticket(2, "Second", "test", 3, OpenStatus)];
    assert s.users[0] == User(1, SeedUsername, SeedPassword, AdminRole);
    var _, root := s.Login(second, SeedUsername, SeedPassword);
    AdminByRecord(s.users, s.userIdCounter, s.users[0]);
    all := s.GetTickets(root);
  }

  /** Updating only the title leaves description, status, id and owner alone. */
  method UpdateTitleOnly() returns (r: Response<Ticket>)
    ensures r == Ok(Ticket(1, "New title", "test", 2, OpenStatus))
  {
    var s := Start();
    var session := SignUp(s, None, "user6", "12345", "salt");
    assert s.users[1].id == 2;
    var created := s.CreateTicket(session, "Old title", "test");
    assert s.tickets[0] == Ticket(1, "Old title", "test", 2, OpenStatus);
    var _ := s.UpdateTicket(session, created.value, Some("New title"), None, None);
    assert s.tickets[0] == Ticket(1, "New title", "test", 2, OpenStatus);
    r := s.GetTicket(session, created.value);
  }

  /** An owner with one ticket and a second, ordinary account signed in as `theirs`. */
  method OwnerAndStranger() returns (s: Store, theirs: Option<UserId>)
    ensures fresh(s) && s.Valid()
    ensures |s.users| == 3 && s.users[2] == User(3, "stranger", "12345", UserRole)
    ensures s.tickets == [Ticket(1, "Mine", "test", 2, OpenStatus)]
    ensures theirs == Some(3)
  {
    s := Start();
    var mine := SignUp(s, None, "owner", "12345", "salt");
    assert s.users[1].id == 2;
    var _ := s.CreateTicket(mine, "Mine", "test");
    theirs := SignUp(s, None, "stranger", "12345", "salt");
  }

  /** Another user can neither read nor change nor delete a ticket that is not theirs. */
  method StrangerIsKeptOut() returns (read: Response<Ticket>, write: Response<()>, remove: Response<()>, count: nat)
    ensures read == NotFound && write == Forbidden && remove == Forbidden && count == 1
  {
    var s, theirs := OwnerAndStranger();
    AdminByRecord(s.users, s.userIdCounter, s.users[2]);
    assert !MayAccess(s.users, 3, s.tickets[0]);
    read := s.GetTicket(theirs, 1);
    write := s.UpdateTicket(theirs, 1, Some("Taken"), None, None);
    assert s.tickets == [Ticket(1, "Mine", "test", 2, OpenStatus)] && s.users[2].id == 3;
    remove := s.DeleteTicket(theirs, 1);
    count := |s.tickets|;
  }

  /** A deleted ticket is gone, and the next ticket does not reuse its id. */
  method DeleteThenGet() returns (r: Response<Ticket>, next: Response<TicketId>)
    ensures r == NotFound && next == Ok(2)
  {
    var s := Start();
    var session := SignUp(s, None, "user7", "12345", "salt");
    assert s.users[1].id == 2;
    var created := s.CreateTicket(session, "To delete", "test");
    assert s.tickets == [Ticket(1, "To delete", "test", 2, OpenStatus)];
    assert created == Ok(1) && MayAccess(s.users, 2, s.tickets[0]);
    var _ := s.DeleteTicket(session, created.value);
    assert s.tickets == [] && s.ticketIdCounter == 2;
    assert s.users[1].id == 2;
    r := s.GetTicket(session, created.value);
    assert s.users[1].id == 2;
    next := s.CreateTicket(session, "Another", "test");
  }

  /** A non-administrator is refused the user listing and role changes, whether or not the target exists. */
  method NonAdminIsForbidden() returns (list: Response<seq<UserView>>, present: Response<()>, absent: Response<()>)
    ensures list == Forbidden && present == Forbidden && absent == Forbidden
  {
    var s := Start();
    var session := SignUp(s, None, "user8", "12345", "salt");
    assert s.users[1] == User(2, "user8", "12345", UserRole);
    AdminByRecord(s.users, s.userIdCounter, s.users[1]);
    list := s.GetUsers(session);
    present := s.UpdateUser(session, 1, Some(AdminRole));
    absent := s.UpdateUser(session, 99, Some(AdminRole));
  }

  /** The seeded administrator signed in, with one ticket of its own, next to one ordinary account. */
  method AdminBesideUser() returns (s: Store, root: Option<UserId>)
    ensures fresh(s) && s.Valid()
    ensures s.users == [User(1, SeedUsername, SeedPassword, AdminRole), User(2, "user9", "12345", UserRole)]
    ensures s.tickets == [Ticket(1, "Admin ticket", "test", 1, OpenStatus)]
    ensures forall d, p :: s.check(d, p) <==> d == p
    ensures root == Some(1)
  {
    s := Start();
    var _ := s.Register("user9", "12345", "salt");
    assert s.users == [User(1, SeedUsername, SeedPassword, AdminRole), User(2, "user9", "12345", UserRole)];
    assert s.users[0].username == SeedUsername && s.check(s.users[0].password, SeedPassword);
    var _, session := s.Login(None, SeedUsername, SeedPassword);
    root := session;
    var _ := s.CreateTicket(root, "Admin ticket", "test");
  }

  /** An administrator lists accounts without digests and promotes a user, who then sees every ticket. */
  method PromoteUser() returns (list: Response<seq<UserView>>, promoted: Response<()>, seen: Response<seq<Ticket>>)
    ensures list == Ok([UserView(1, SeedUsername, AdminRole), UserView(2, "user9", UserRole)])
    ensures promoted == Ok(())
    ensures seen == Ok([Ticket(1, "Admin ticket", "test", 1, OpenStatus)])
  {
    var s, root := AdminBesideUser();
    AdminByRecord(s.users, s.userIdCounter, s.users[0]);
    assert Views(s.users) == [UserView(1, SeedUsername, AdminRole), UserView(2, "user9", UserRole)] by {
      assert Views(s.users)[0] == View(s.users[0]) && Views(s.users)[1] == View(s.users[1]);
    }
    list := s.GetUsers(root);
    promoted := s.UpdateUser(root, 2, Some(AdminRole));
    assert s.users[1] == User(2, "user9", "12345", AdminRole);
    assert s.users[1].username == "user9" && s.check(s.users[1].password, "12345");
    var _, session := s.Login(root, "user9", "12345");
    AdminByRecord(s.users, s.userIdCounter, s.users[1]);
    seen := s.GetTickets(session);
  }
}
