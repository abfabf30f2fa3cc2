# Helpdesk store — a Dafny model

This project models the in-memory store behind a small helpdesk ticketing API (`app.py`). The store holds
two tables, users and tickets, and two id counters that only ever grow. It exposes one operation per
request handler: register, login, logout, create, list, get, update and delete tickets, list users, and
change a user's role. Each handler checks the caller's role (`"admin"`) and whether the caller owns the
ticket.

The model has four modules:

- `Records` (`records.dfy`): the `User` and `Ticket` records, the `UserView` projection, `Option`, and
  the `Response` datatype. `Response` stands in for the HTTP status codes: `Ok` (200/201), `Conflict`
  (400), `Unauthorized` (401 from `login`; the login redirect elsewhere), `Forbidden` (403) and
  `NotFound` (404). This module also has the partial ticket update `Patch`.
- `Tables` (`tables.dfy`): the tables as values. It holds their invariants (ids increase and stay below
  the counter, usernames are unique, every ticket owner is a registered account), the access predicates,
  and the three list comprehensions of the source as functions (`OwnedBy`, `WithoutId`, `Views`), with
  lemmas about them.
- `Helpdesk` (`helpdesk.dfy`): the class `Store`. Its fields are `users`, `tickets`, `userIdCounter` and
  `ticketIdCounter`, and it has one method per handler. The methods keep the source's `for` loops with
  early returns. Each method's contract gives the exact response and the exact new state, in terms of
  the old state.
- `Scenarios` (`scenarios.dfy`): request sequences taken from the test suite, and a few more that no
  test exercises. Each one starts from a fresh store and proves the responses the handlers give.

Modelling decisions:

- **Principal.** The authenticated principal is an explicit `Option<UserId>` argument, not flask_login's
  ambient `current_user`. `login` and `logout` return the new session value. A handler that requires a
  login answers `Unauthorized` when the session is empty, or when it names an id that `load_user` cannot
  find. The caller's role is read from the table at the time of the request.
- **Password hashing.** The hasher is two function-valued constants of the store, `hash(password, salt)`
  and `check(digest, password)`. The only property assumed of them is `check(hash(p, s), p)`, which the
  constructor requires. The salt is an explicit parameter, because werkzeug picks it at random.
  `Scenarios.Start` plugs in a stand-in hasher whose digest is the password itself.
- **In-place writes.** The source writes record fields in place (`ticket['title'] = ...`,
  `user.role = ...`). The model writes these as sequence updates `s[k := ...]`.
- **`register`'s answer.** `register` answers with a message and the role only (app.py:64); it does not
  return the new account's id, and `Register` returns `Ok(UserRole)`.
- **`get_ticket` keeps scanning.** When the id matches but the caller may not see the ticket,
  `get_ticket` does not return at once; its loop goes on. The model keeps that loop. Because ids are
  unique, the result is the same.

## Model

| member | source | states |
|---|---|---|
| `Records.Patch` | app.py:129-131 | each supplied field (title, description, status) replaces the stored one, each absent field is kept, and `id` and `user_id` never change |
| `Tables.OwnedBy` | app.py:107 | the non-admin listing is no longer than the table and holds only tickets of the table whose owner is the caller |
| `Tables.OwnedByComplete` | app.py:107 | every ticket of the caller in the table appears in the caller's listing (with `OwnedBy`'s ensures: exactly the caller's tickets) |
| `Tables.OwnedByInOrder` | app.py:104-108 | the caller's listing is a subsequence of the table, so insertion order is kept |
| `Tables.OwnedByNone` | app.py:107 | a table with no ticket of the caller gives an empty listing, however many other tickets it holds |
| `Tables.WithoutId` | app.py:144 | the filtered table is no longer than the original and contains no ticket with the deleted id |
| `Tables.WithoutAbsentId` | app.py:144 | filtering out an id that no ticket carries leaves the table unchanged |
| `Tables.WithoutUniqueId` | app.py:144 | when only ticket k carries the id, the filter removes exactly ticket k and keeps the rest in order |
| `Tables.WithoutIdRemovesOne` | app.py:140-145 | with increasing ticket ids, deleting the id of ticket k yields `tickets[..k] + tickets[k+1..]` |
| `Tables.Views` | app.py:154 | the user listing has one entry per account, in table order, with that account's id, username and role |
| `Tables.ViewsIgnorePasswords` | app.py:154 | two tables that differ only in password digests give the same listing, so the listing reveals nothing about passwords |
| `Tables.SetRoleKeepsValid` | app.py:163-167 | changing one account's role keeps ids increasing, usernames unique and every ticket owner registered |
| `Tables.AdminByRecord` | app.py:104 | while ids are unique, the loaded account's `role == 'admin'` check agrees with the table-level admin predicate |
| `Helpdesk.Store.constructor` | app.py:13-32 | the store starts with empty tables, then the seeded `superadmin` with role admin and id 1; the user counter is then 2 and the ticket counter 1 |
| `Helpdesk.Store.LoadUser` | app.py:35-39 | returns an account iff one with that id is registered, and the returned account is in the table with that id |
| `Helpdesk.Store.CurrentUser` | app.py:34-39 | a session resolves to an account iff it names a registered id; otherwise the caller is not signed in |
| `Helpdesk.Store.Register` | app.py:43-64 | a taken username gives Conflict and changes nothing; otherwise exactly one account is appended with id = old counter, the hashed password and role "user", and the counter grows by 1; the invariants (unique usernames and ids) are kept |
| `Helpdesk.Store.Login` | app.py:68-74 | succeeds iff some account has the username and a digest that checks against the password; it then returns that account's role and sets the session to its id; otherwise it answers Unauthorized for unknown names and wrong passwords alike, and the session is unchanged |
| `Helpdesk.Store.Logout` | app.py:79-81 | a signed-in session becomes empty with Ok; without a valid session the answer is Unauthorized and the session is unchanged |
| `Helpdesk.Store.CreateTicket` | app.py:86-98 | without a valid session: Unauthorized, nothing changes; otherwise appends an open ticket with id = old ticket counter and owner = caller, returns that id and increments the counter |
| `Helpdesk.Store.GetTickets` | app.py:103-108 | an admin gets the whole table in insertion order; anyone else signed in gets exactly `OwnedBy(tickets, caller)`; no session gives Unauthorized |
| `Helpdesk.Store.GetTicket` | app.py:113-118 | returns the ticket with that id iff it exists and the caller is admin or owner; an absent ticket and a ticket that is not the caller's both give NotFound |
| `Helpdesk.Store.UpdateTicket` | app.py:123-133 | absent id: NotFound; caller neither admin nor owner: Forbidden; in both cases and without a session nothing changes; otherwise only that ticket is replaced by its `Patch`, and the length, the other tickets, the users and the counters are unchanged |
| `Helpdesk.Store.DeleteTicket` | app.py:138-146 | absent id: NotFound; a non-owner non-admin: Forbidden; nothing changes in either case; on success exactly that ticket is removed, the rest keep their order, no ticket with that id remains, and the ticket counter is untouched |
| `Helpdesk.Store.GetUsers` | app.py:151-155 | a signed-in non-admin gets Forbidden; an admin gets `Views(users)` (id, username, role of every account, no password) |
| `Helpdesk.Store.UpdateUser` | app.py:160-168 | a non-admin gets Forbidden whatever the target id, and nothing changes; an unknown id gives NotFound; otherwise only that account's role changes, to the supplied string or kept if absent; ids, usernames, tickets and counters are unchanged |
| `Scenarios.Start` | app.py:25-32 | a freshly started store holds only the seeded administrator, with the stand-in hasher plugged in |
| `Scenarios.SignUp` | test_app.py:26-27 | registering a fresh username and then logging in with its password signs in the new account, whose id is the old counter |
| `Scenarios.RegisterTwice` | app.py:52-64 | the first registration of a username succeeds with role "user", as test_app.py:18-23 expects; a second registration of the same name (which no test makes) is a Conflict and adds no account |
| `Scenarios.RegisterThenLogin` | test_app.py:25-28 | a newly registered account logs in, gets role "user", and the session becomes its id 2 |
| `Scenarios.BadCredentials` | app.py:70-74 | a wrong password and an unknown username both give Unauthorized, and the session stays empty |
| `Scenarios.SeededAdminLogin` | app.py:26-31 | `superadmin` / `admin123` logs in with role admin and session id 1 |
| `Scenarios.CreateOneTicket` | test_app.py:30-42 | the first ticket a signed-in user creates gets id 1, and it is the only ticket in the table |
| `Scenarios.UserSeesOnlyOwnTickets` | test_app.py:44-60 | a second user's list is empty although the first user has a ticket |
| `Scenarios.AdminSeesAllTickets` | app.py:104-105 | the administrator's list holds both users' tickets in creation order |
| `Scenarios.UpdateTitleOnly` | test_app.py:62-78 | after an update with only a title, the ticket has the new title and keeps its description, status, id and owner |
| `Scenarios.StrangerIsKeptOut` | app.py:114-143 | another user's get gives NotFound, and update and delete give Forbidden; the ticket stays in the table |
| `Scenarios.DeleteThenGet` | app.py:138-146 | once a ticket is deleted, a get gives NotFound, as test_app.py:80-96 expects; beyond the test, the next ticket gets id 2, not the deleted id 1, because the delete leaves the counter of app.py:97 alone and create_ticket takes its id from it (app.py:90) |
| `Scenarios.NonAdminIsForbidden` | app.py:152-162 | a non-admin is refused the user list and role changes, with Forbidden, for an existing target id and for a missing one |
| `Scenarios.PromoteUser` | app.py:154-166 | an admin lists the accounts without their digests and promotes a user to admin; that user then sees tickets they do not own |

## Left out

- Flask routing, `request.json`, `jsonify`, HTTP status codes, the JSON message texts, `SECRET_KEY` and
  `app.run` (app.py:1-10, 170-171). These are transport only. `Response` variants replace status codes
  and bodies, so the distinct messages ("Ticket not found" and "Ticket not found or access denied") are
  not kept.
- flask_login's session mechanics: cookies, `login_user`/`logout_user` and the `login_required`
  decorator. The session is the explicit principal argument.
- The redirect of an anonymous caller. `login_manager.login_view = 'login'` (app.py:10) makes
  `login_required` redirect a caller who is not signed in to the login view; only `login` itself answers
  401 (app.py:74). The model folds that redirect into `Unauthorized`.
- werkzeug's hashing algorithm and its random salts. Hashing is the abstract `hash`/`check` pair with the
  one assumed law. The salt is a caller-supplied parameter.
- The `str(...)` comparison in `load_user` (app.py:37). It is modelled as an id comparison on natural
  numbers.
- Missing request keys and non-string JSON values. A missing `username` or `password` at app.py:71 and a
  missing `title` or `description` at app.py:91-92 crash the framework with a KeyError. A `None` from
  `data.get` in `register` is also not modelled. These inputs are required parameters. The optional
  `data.get` fields of the update handlers are `Option<string>`, so an explicit JSON `null` (which the
  source would store) is not modelled.
- The test fixture's reset (test_app.py:10-15). It clears the shared lists, but it rebinds only the test
  module's own counter names. The scenarios therefore start from a freshly started store, seeded
  administrator included. That store differs from the fixture's, but no test depends on the difference.
- Concurrent requests. The source has no locking. The model is the sequential semantics, one request at
  a time.
- Aliasing. Records are values, so nothing in the model can hold a reference to a table entry across
  requests. The source never does so either: `current_user` is loaded afresh on every request.
