/** The account handlers over the user table. Each runs its transaction on a working copy that
    replaces the table only at commit; the table cannot change under the lock it holds. */
module AccountStore {
  import opened Basics
  import opened Accounts

  /** What a handler answers: 201 and 200 carry the account, 204 nothing. */
  datatype Reply = Reply(status: int)

  class UserTable {
    const checks: Checks
    var users: Table
    var audit: seq<Event>
    var nextId: int

    constructor (checks: Checks, users: Table, nextId: int)
      requires forall id | id in users :: id < nextId
      ensures this.checks == checks && this.users == users && this.nextId == nextId && audit == [] && Valid()
    {
      this.checks, this.users, this.nextId := checks, users, nextId;
      audit := [];
    }

    /** Ids come from a sequence. */
    ghost predicate Valid()
      reads this
    {
      forall id | id in users :: id < nextId
    }

    /** The reply to a request, and the state it leaves, from the rules for one change. */
    ghost predicate Answers(r: Request, accepted: int, before: Table, events: seq<Event>, newId: int, reply: Reply)
      reads this
    {
      var refused := Refusal(r, before);
      if refused != 0 then reply.status == refused && users == before && audit == events
      else match Performed(checks, before, r, newId)
        case Refused(status) => reply.status == status && users == before && audit == events
        case Accepted(table, more) => reply.status == accepted && users == table && audit == events + more
    }

    /** The request succeeded exactly when it was allowed. */
    ghost predicate Succeeds(r: Request, accepted: int, before: Table, reply: Reply) {
      reply.status == accepted <==> Allowed(checks, before, r)
    }

    ghost function Refusal(r: Request, t: Table): int {
      var invalid := Validate(checks, r.change);
      if invalid != 0 then invalid else Admit(checks, t, r.actor, r.password, NeedsAdmin(r.change))
    }

    /** beginAccountChange under the lock: 0, or the refusing status. */
    method BeginAccountChange(actor: int, password: string, needAdmin: bool) returns (status: int)
      ensures status == Admit(checks, users, actor, password, needAdmin)
    {
      if actor !in users { return 401; }
      var row := users[actor];
      if row.banned || !checks.verify(row.hash, password) { return 401; }
      if needAdmin && row.role != "admin" { return 403; }
      return 0;
    }

    method CreateUser(actor: int, password: string, name: string, newPassword: string, admin: bool, hash: string)
      returns (reply: Reply)
      requires Valid()
      modifies this
      ensures Answers(Request(actor, password, Create(name, newPassword, admin), hash), 201, old(users), old(audit),
                      old(nextId), reply) && Valid()
      ensures Succeeds(Request(actor, password, Create(name, newPassword, admin), hash), 201, old(users), reply)
    {
      AcceptedIffAllowed(checks, users, Request(actor, password, Create(name, newPassword, admin), hash), nextId);
      if !(ValidUsername(checks, name) && ValidNewPassword(checks, newPassword)) { return Reply(422); }
      var status := BeginAccountChange(actor, password, true);
      if status != 0 { return Reply(status); }
      var role := "user";
      if admin { role := "admin"; }
      if exists id | id in users :: users[id].name == name { return Reply(409); }
      users := users[nextId := Account(name, hash, role, false)];
      audit := audit + [Event(actor, nextId, "create_user")];
      nextId := nextId + 1;
      return Reply(201);
    }

    method UpdateUser(actor: int, password: string, target: int, makeAdmin: Option<bool>, disable: Option<bool>)
      returns (reply: Reply)
      requires Valid()
      modifies this
      ensures Answers(Request(actor, password, Update(target, makeAdmin, disable), ""), 200, old(users), old(audit),
                      old(nextId), reply) && Valid()
      ensures Succeeds(Request(actor, password, Update(target, makeAdmin, disable), ""), 200, old(users), reply)
    {
      AcceptedIffAllowed(checks, users, Request(actor, password, Update(target, makeAdmin, disable), ""), nextId);
      if target < 1 { return Reply(404); }
      if makeAdmin.None? && disable.None? { return Reply(422); }
      var status := BeginAccountChange(actor, password, true);
      if status != 0 { return Reply(status); }
      if target !in users { return Reply(404); }
      var row := users[target];
      var wasAdmin, wasDisabled := row.role == "admin", row.banned;
      var isAdmin, isDisabled := wasAdmin, wasDisabled;
      if makeAdmin.Some? { isAdmin := makeAdmin.value; }
      if disable.Some? { isDisabled := disable.value; }
      if wasDisabled && !isDisabled && !Scrypt(row.hash) { return Reply(409); }
      if wasAdmin && !wasDisabled && (!isAdmin || isDisabled) {
        var remaining := |OtherAdmins(users, target)|;
        if remaining == 0 { return Reply(409); }
      }
      users := users[target := row.(role := RoleName(isAdmin), banned := isDisabled)];
      if wasAdmin != isAdmin {
        audit := audit + [Event(actor, target, "change_user_role")];
      }
      if wasDisabled != isDisabled {
        audit := audit + [Event(actor, target, if isDisabled then "disable_user" else "enable_user")];
      }
      return Reply(200);
    }

    /** resetUserPassword and changeOwnPassword. */
    method SetAccountPassword(actor: int, password: string, target: int, newPassword: string, current: string,
                              own: bool, hash: string)
      returns (reply: Reply)
      requires Valid() && (own ==> target == actor)
      modifies this
      ensures Answers(Request(actor, password, if own then Own(newPassword, current)
                              else Reset(target, newPassword, current), hash),
                      204, old(users), old(audit), old(nextId), reply) && Valid()
      ensures Succeeds(Request(actor, password, if own then Own(newPassword, current)
                               else Reset(target, newPassword, current), hash), 204, old(users), reply)
    {
      AcceptedIffAllowed(checks, users, Request(actor, password, if own then Own(newPassword, current)
                                                else Reset(target, newPassword, current), hash), nextId);
      if !own && target < 1 { return Reply(404); }
      if !ValidNewPassword(checks, newPassword) || (own && (current == "" || ByteLen(current) > 4096))
        || (!own && current != "") {
        return Reply(422);
      }
      var status := BeginAccountChange(actor, password, !own);
      if status != 0 { return Reply(status); }
      if target !in users { return Reply(404); }
      var row := users[target];
      if own && !checks.verify(row.hash, current) { return Reply(422); }
      users := users[target := row.(hash := hash)];
      audit := audit + [Event(actor, target, if own then "change_own_password" else "reset_user_password")];
      return Reply(204);
    }
  }
}
