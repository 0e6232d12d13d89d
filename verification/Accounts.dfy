/** Account changes: what each request does under the account lock, and what every interleaving of
    requests keeps. */
module Accounts {
  import opened Basics

  /** A row of the user table. */
  datatype Account = Account(name: string, hash: string, role: string, banned: bool)

  type Table = map<int, Account>

  /** The password check and the character tables; a check passes only against scrypt hashes. */
  datatype Checks = Checks(verify: (string, string) -> bool, trim: string -> string, control: char -> bool)

  ghost predicate Lawful(k: Checks) {
    forall hash, password :: k.verify(hash, password) ==> Scrypt(hash)
  }

  predicate Scrypt(hash: string) {
    "scrypt:" <= hash
  }

  predicate ActiveAdmin(a: Account) {
    a.role == "admin" && !a.banned
  }

  // ----- Requests -----

  datatype Change =
    | Create(name: string, password: string, admin: bool)
    | Update(target: int, makeAdmin: Option<bool>, disable: Option<bool>)
    | Reset(target: int, password: string, current: string)
    | Own(password: string, current: string)

  /** A request as its handler sees it; hash is the salted hash just made of the new password. */
  datatype Request = Request(actor: int, password: string, change: Change, hash: string)

  predicate NoControl(k: Checks, s: string) {
    forall i | 0 <= i < |s| :: !k.control(s[i])
  }

  predicate ValidUsername(k: Checks, name: string) {
    3 <= |name| <= 100 && name == k.trim(name) && ':' !in name && NoControl(k, name)
  }

  predicate ValidNewPassword(k: Checks, password: string) {
    14 <= |password| <= 256 && ByteLen(password) <= 1024 && NoControl(k, password)
  }

  function Validate(k: Checks, change: Change): int {
    match change
    case Create(name, password, _) => if ValidUsername(k, name) && ValidNewPassword(k, password) then 0 else 422
    case Update(target, makeAdmin, disable) =>
      if target < 1 then 404 else if makeAdmin.None? && disable.None? then 422 else 0
    case Reset(target, password, current) =>
      if target < 1 then 404 else if ValidNewPassword(k, password) && current == "" then 0 else 422
    case Own(password, current) =>
      if ValidNewPassword(k, password) && current != "" && ByteLen(current) <= 4096 then 0 else 422
  }

  /** The recheck of the actor under the lock: 0, or the refusing status. */
  function Admit(k: Checks, t: Table, actor: int, password: string, needAdmin: bool): int {
    if actor !in t || t[actor].banned || !k.verify(t[actor].hash, password) then 401
    else if needAdmin && t[actor].role != "admin" then 403
    else 0
  }

  datatype Event = Event(actor: int, target: int, action: string)

  datatype Outcome = Refused(status: int) | Accepted(table: Table, events: seq<Event>)

  function RoleName(admin: bool): string {
    if admin then "admin" else "user"
  }

  function OtherAdmins(t: Table, target: int): set<int> {
    set id | id in t && ActiveAdmin(t[id]) && id != target
  }

  function Created(t: Table, r: Request, newId: int): Outcome
    requires r.change.Create?
  {
    var c := r.change;
    if exists id | id in t :: t[id].name == c.name then Refused(409)
    else Accepted(t[newId := Account(c.name, r.hash, RoleName(c.admin), false)], [Event(r.actor, newId, "create_user")])
  }

  function Updated(t: Table, r: Request): Outcome
    requires r.change.Update?
  {
    var c := r.change;
    if c.target !in t then Refused(404)
    else
      var row := t[c.target];
      var admin := if c.makeAdmin.Some? then c.makeAdmin.value else row.role == "admin";
      var disabled := if c.disable.Some? then c.disable.value else row.banned;
      if row.banned && !disabled && !Scrypt(row.hash) then Refused(409)
      else if ActiveAdmin(row) && (!admin || disabled) && OtherAdmins(t, c.target) == {} then Refused(409)
      else Accepted(t[c.target := row.(role := RoleName(admin), banned := disabled)],
                    (if admin != (row.role == "admin") then [Event(r.actor, c.target, "change_user_role")] else [])
                    + (if disabled == row.banned then []
                       else [Event(r.actor, c.target, if disabled then "disable_user" else "enable_user")]))
  }

  function PasswordSet(k: Checks, t: Table, r: Request, target: int): Outcome
    requires r.change.Reset? || r.change.Own?
  {
    if target !in t then Refused(404)
    else if r.change.Own? && !k.verify(t[target].hash, r.change.current) then Refused(422)
    else Accepted(t[target := t[target].(hash := r.hash)],
                  [Event(r.actor, target, if r.change.Own? then "change_own_password" else "reset_user_password")])
  }

  /** The statements after the recheck; newId is the sequence's next id. */
  function Performed(k: Checks, t: Table, r: Request, newId: int): Outcome {
    match r.change
    case Create(_, _, _) => Created(t, r, newId)
    case Update(_, _, _) => Updated(t, r)
    case Reset(target, _, _) => PasswordSet(k, t, r, target)
    case Own(_, _) => PasswordSet(k, t, r, r.actor)
  }

  // ----- What one change keeps -----

  ghost predicate Governed(t: Table) {
    exists id :: id in t && ActiveAdmin(t[id])
  }

  ghost predicate EnabledHashed(t: Table) {
    forall id | id in t && !t[id].banned :: Scrypt(t[id].hash)
  }

  /** A request whose new hash, when it needs one, is a hash of its new password. */
  ghost predicate Sound(k: Checks, r: Request) {
    !r.change.Update? ==> Scrypt(r.hash) && k.verify(r.hash, r.change.password)
  }

  lemma ChangeKeeps(k: Checks, t: Table, r: Request, newId: int)
    requires Sound(k, r) && newId !in t && Performed(k, t, r, newId).Accepted?
    ensures var after := Performed(k, t, r, newId).table;
      (Governed(t) ==> Governed(after)) && (EnabledHashed(t) ==> EnabledHashed(after))
  {
    var after := Performed(k, t, r, newId).table;
    if Governed(t) {
      var id :| id in t && ActiveAdmin(t[id]);
      if !(id in after && ActiveAdmin(after[id])) {
        assert r.change.Update? && id == r.change.target;
        var other :| other in OtherAdmins(t, id);
        assert other in after && ActiveAdmin(after[other]);
      }
    }
  }

  /** The audit trail is exact: an account's administrator flag, enabled flag or password changes
      only with, and an account appears only with, an event that names it and the actor. */
  lemma AuditExact(k: Checks, t: Table, r: Request, newId: int, id: int)
    requires Sound(k, r) && newId !in t && Performed(k, t, r, newId).Accepted?
    ensures var after, events := Performed(k, t, r, newId).table, Performed(k, t, r, newId).events;
      && t.Keys <= after.Keys
      && (id in after && id !in t <==> Event(r.actor, id, "create_user") in events)
      && (id in t ==>
           && (Event(r.actor, id, "change_user_role") in events <==>
               (t[id].role == "admin") != (after[id].role == "admin"))
           && (Event(r.actor, id, "disable_user") in events <==> !t[id].banned && after[id].banned)
           && (Event(r.actor, id, "enable_user") in events <==> t[id].banned && !after[id].banned)
           && (after[id].hash != t[id].hash ==>
                Event(r.actor, id, "reset_user_password") in events
                  || Event(r.actor, id, "change_own_password") in events)
           && after[id].name == t[id].name)
  {
  }

  /** The account a change is about. */
  function Target(r: Request, newId: int): int {
    match r.change
    case Create(_, _, _) => newId
    case Update(target, _, _) => target
    case Reset(target, _, _) => target
    case Own(_, _) => r.actor
  }

  /** An accepted change does what it says and nothing else: the new password, role and status hold
      for its target, what it does not name stays, and so does every other account. */
  lemma ChangeTakesEffect(k: Checks, t: Table, r: Request, newId: int)
    requires Sound(k, r) && newId !in t && Performed(k, t, r, newId).Accepted?
    ensures var after, target := Performed(k, t, r, newId).table, Target(r, newId);
      && target in after && after.Keys == t.Keys + {target}
      && (forall id | id in t && id != target :: after[id] == t[id])
      && (!r.change.Update? ==> k.verify(after[target].hash, r.change.password))
      && (r.change.Create? ==>
            && !after[target].banned && after[target].name == r.change.name
            && (ActiveAdmin(after[target]) <==> r.change.admin))
      && (r.change.Update? ==>
            && after[target].hash == t[target].hash
            && ((after[target].role == "admin") == if r.change.makeAdmin.Some? then r.change.makeAdmin.value
                else t[target].role == "admin")
            && (after[target].banned == if r.change.disable.Some? then r.change.disable.value else t[target].banned))
      && (r.change.Reset? || r.change.Own? ==> after[target] == t[target].(hash := after[target].hash))
  {
  }

  // ----- Which requests are accepted -----

  /** The actor is enabled and the password given is its own. */
  ghost predicate Proven(k: Checks, t: Table, actor: int, password: string) {
    actor in t && !t[actor].banned && k.verify(t[actor].hash, password)
  }

  ghost predicate ProvenAdmin(k: Checks, t: Table, actor: int, password: string) {
    Proven(k, t, actor, password) && t[actor].role == "admin"
  }

  /** 14 to 256 code points in at most 1024 bytes, none of them a control character. */
  ghost predicate GoodPassword(k: Checks, password: string) {
    14 <= |password| <= 256 && ByteLen(password) <= 1024 && forall c | c in password :: !k.control(c)
  }

  /** A new account: by an administrator, under an unused name of 3 to 100 code points, without surrounding
      space, colons and control characters. */
  ghost predicate MayCreate(k: Checks, t: Table, actor: int, password: string, name: string, newPassword: string) {
    && ProvenAdmin(k, t, actor, password) && GoodPassword(k, newPassword)
    && 3 <= |name| <= 100 && k.trim(name) == name && (forall c | c in name :: c != ':' && !k.control(c))
    && forall id | id in t :: t[id].name != name
  }

  /** A role or status change: by an administrator, of an account there is. It may enable a disabled account
      only with an scrypt hash, and take the last active administrator neither role nor status. */
  ghost predicate MayUpdate(k: Checks, t: Table, actor: int, password: string, target: int, makeAdmin: Option<bool>,
                            disable: Option<bool>) {
    && ProvenAdmin(k, t, actor, password) && target >= 1 && target in t && (makeAdmin.Some? || disable.Some?)
    && (t[target].banned && disable == Some(false) ==> "scrypt:" <= t[target].hash)
    && (t[target].role == "admin" && !t[target].banned && (makeAdmin == Some(false) || disable == Some(true)) ==>
          exists id :: id in t && id != target && t[id].role == "admin" && !t[id].banned)
  }

  ghost predicate MayReset(k: Checks, t: Table, actor: int, password: string, target: int, newPassword: string,
                           current: string) {
    && ProvenAdmin(k, t, actor, password) && target >= 1 && target in t && GoodPassword(k, newPassword)
    && current == ""
  }

  /** Any enabled account may change its own password by giving the current one again. */
  ghost predicate MayChangeOwn(k: Checks, t: Table, actor: int, password: string, newPassword: string,
                               current: string) {
    && Proven(k, t, actor, password) && GoodPassword(k, newPassword)
    && current != "" && ByteLen(current) <= 4096 && k.verify(t[actor].hash, current)
  }

  ghost predicate Allowed(k: Checks, t: Table, r: Request) {
    match r.change
    case Create(name, newPassword, _) => MayCreate(k, t, r.actor, r.password, name, newPassword)
    case Update(target, makeAdmin, disable) => MayUpdate(k, t, r.actor, r.password, target, makeAdmin, disable)
    case Reset(target, newPassword, current) =>
      MayReset(k, t, r.actor, r.password, target, newPassword, current)
    case Own(newPassword, current) => MayChangeOwn(k, t, r.actor, r.password, newPassword, current)
  }

  lemma NoControlIff(k: Checks, s: string)
    ensures NoControl(k, s) <==> forall c | c in s :: !k.control(c)
  {
    forall i | 0 <= i < |s| ensures s[i] in s {}
  }

  lemma OthersIff(t: Table, target: int)
    ensures OtherAdmins(t, target) != {} <==>
            exists id :: id in t && id != target && t[id].role == "admin" && !t[id].banned
  {
    if id :| id in t && id != target && t[id].role == "admin" && !t[id].banned { assert id in OtherAdmins(t, target); }
  }

  /** A request passes validation, the recheck and its own statements exactly when it is allowed. */
  lemma AcceptedIffAllowed(k: Checks, t: Table, r: Request, newId: int)
    ensures Validate(k, r.change) == 0 && Admit(k, t, r.actor, r.password, NeedsAdmin(r.change)) == 0
            && Performed(k, t, r, newId).Accepted?
       <==> Allowed(k, t, r)
  {
    match r.change
    case Create(name, newPassword, _) =>
      NoControlIff(k, name);
      NoControlIff(k, newPassword);
    case Update(target, makeAdmin, disable) =>
      OthersIff(t, target);
    case Reset(_, newPassword, _) => NoControlIff(k, newPassword);
    case Own(newPassword, _) => NoControlIff(k, newPassword);
  }

  // ----- Interleaving -----

  /** How far the request that holds the lock has come. */
  datatype Phase = Entered | Admitted | Staged(table: Table, events: seq<Event>)

  datatype Holder = Holder(request: Request, phase: Phase)

  /** A committed change with the tables around it. */
  datatype Entry = Entry(request: Request, before: Table, after: Table, events: seq<Event>)

  datatype System = System(committed: Table, holder: Option<Holder>, log: seq<Entry>)

  /** Enter takes the free lock for any request, however long ago and as whomever it was
      authenticated; Release is a refusal, a rollback or a lost connection at any point. */
  datatype Step = Enter(request: Request) | Recheck | Stage(newId: int) | Commit | Release

  predicate NeedsAdmin(change: Change) {
    !change.Own?
  }

  ghost predicate Next(k: Checks, s: System, step: Step, s': System) {
    match step
    case Enter(r) =>
      s.holder.None? && Sound(k, r) && Validate(k, r.change) == 0 && s' == s.(holder := Some(Holder(r, Entered)))
    case Recheck =>
      && s.holder.Some? && s.holder.value.phase.Entered?
      && (var r := s.holder.value.request;
          Admit(k, s.committed, r.actor, r.password, NeedsAdmin(r.change)) == 0
            && s' == s.(holder := Some(Holder(r, Admitted))))
    case Stage(newId) =>
      && s.holder.Some? && s.holder.value.phase.Admitted? && newId !in s.committed
      && (var r := s.holder.value.request;
          var o := Performed(k, s.committed, r, newId);
          o.Accepted? && s' == s.(holder := Some(Holder(r, Staged(o.table, o.events)))))
    case Commit =>
      && s.holder.Some? && s.holder.value.phase.Staged?
      && (var h := s.holder.value;
          s' == System(h.phase.table, None, s.log + [Entry(h.request, s.committed, h.phase.table, h.phase.events)]))
    case Release =>
      s.holder.Some? && s' == s.(holder := None)
  }

  ghost predicate Run(k: Checks, states: seq<System>, steps: seq<Step>) {
    && |states| == |steps| + 1
    && forall i | 0 <= i < |steps| :: Next(k, states[i], steps[i], states[i + 1])
  }

  /** The actor of a logged change was, in the table it changed, enabled, with a matching password,
      and an administrator unless it changed its own password; and the change is what its request
      asks of that table. */
  ghost predicate Authorized(k: Checks, e: Entry) {
    && Sound(k, e.request) && Validate(k, e.request.change) == 0
    && e.request.actor in e.before && !e.before[e.request.actor].banned
    && k.verify(e.before[e.request.actor].hash, e.request.password)
    && (NeedsAdmin(e.request.change) ==> ActiveAdmin(e.before[e.request.actor]))
    && exists newId :: newId !in e.before && Performed(k, e.before, e.request, newId) == Accepted(e.after, e.events)
  }

  ghost predicate HolderInv(k: Checks, s: System) {
    s.holder.Some? ==>
      var h := s.holder.value;
      && Sound(k, h.request) && Validate(k, h.request.change) == 0
      && (!h.phase.Entered? ==>
          Admit(k, s.committed, h.request.actor, h.request.password, NeedsAdmin(h.request.change)) == 0)
      && (h.phase.Staged? ==>
            exists newId :: newId !in s.committed
              && Performed(k, s.committed, h.request, newId) == Accepted(h.phase.table, h.phase.events))
  }

  /** Each logged change starts from the table the one before it left; the last left the current. */
  ghost predicate Linked(first: Table, now: Table, log: seq<Entry>) {
    && (log == [] ==> now == first)
    && (log != [] ==> log[0].before == first && log[|log| - 1].after == now)
    && forall i | 0 < i < |log| :: log[i].before == log[i - 1].after
  }

  ghost predicate Inv(k: Checks, first: Table, s: System) {
    && (Governed(first) ==> Governed(s.committed))
    && (EnabledHashed(first) ==> EnabledHashed(s.committed))
    && HolderInv(k, s)
    && Linked(first, s.committed, s.log)
    && forall e | e in s.log :: Authorized(k, e)
  }

  lemma CommitInv(k: Checks, first: Table, s: System, s': System)
    requires Inv(k, first, s) && Next(k, s, Commit, s')
    ensures Inv(k, first, s')
  {
    var h := s.holder.value;
    var newId :| newId !in s.committed
      && Performed(k, s.committed, h.request, newId) == Accepted(h.phase.table, h.phase.events);
    ChangeKeeps(k, s.committed, h.request, newId);
    var e := s'.log[|s.log|];
    assert Authorized(k, e);
    forall i | 0 < i < |s'.log| ensures s'.log[i].before == s'.log[i - 1].after {
      if i < |s.log| { assert s'.log[i] == s.log[i]; }
    }
  }

  lemma StepInv(k: Checks, first: Table, s: System, step: Step, s': System)
    requires Inv(k, first, s) && Next(k, s, step, s')
    ensures Inv(k, first, s')
  {
    match step
    case Commit => CommitInv(k, first, s, s');
    case Stage(newId) =>
      var h := s'.holder.value;
      assert Performed(k, s'.committed, h.request, newId) == Accepted(h.phase.table, h.phase.events);
    case _ =>
  }

  /** Over every run: an active administrator remains if there was one, enabled accounts keep scrypt
      hashes, and every committed change was authorized in the very table it changed. */
  lemma {:induction false} AccountSafety(k: Checks, states: seq<System>, steps: seq<Step>, i: nat)
    requires Run(k, states, steps) && states[0].holder.None? && states[0].log == [] && i < |states|
    ensures Inv(k, states[0].committed, states[i])
  {
    if i > 0 {
      AccountSafety(k, states, steps, i - 1);
      StepInv(k, states[0].committed, states[i - 1], steps[i - 1], states[i]);
    }
  }

  /** Nobody without an scrypt hash has ever changed an account. */
  lemma ActorsHashed(k: Checks, states: seq<System>, steps: seq<Step>, i: nat, e: Entry)
    requires Lawful(k) && Run(k, states, steps) && states[0].holder.None? && states[0].log == [] && i < |states|
    requires e in states[i].log
    ensures e.request.actor in e.before && Scrypt(e.before[e.request.actor].hash)
  {
    AccountSafety(k, states, steps, i);
  }

  /** Every committed change was allowed in the very table it changed. */
  lemma LoggedIsAllowed(k: Checks, states: seq<System>, steps: seq<Step>, i: nat, e: Entry)
    requires Run(k, states, steps) && states[0].holder.None? && states[0].log == [] && i < |states|
    requires e in states[i].log
    ensures Allowed(k, e.before, e.request)
  {
    AccountSafety(k, states, steps, i);
    var newId :| newId !in e.before && Performed(k, e.before, e.request, newId) == Accepted(e.after, e.events);
    AcceptedIffAllowed(k, e.before, e.request, newId);
  }

  /** And every allowed request can be: from any state with the lock free, entering, rechecking, staging and
      committing it logs it and makes its table the current one. */
  lemma AllowedCommits(k: Checks, s: System, r: Request, newId: int) returns (states: seq<System>, steps: seq<Step>)
    requires s.holder.None? && Sound(k, r) && Allowed(k, s.committed, r) && newId !in s.committed
    ensures Run(k, states, steps) && states[0] == s
    ensures var last := states[|steps|];
      && last.holder.None? && |last.log| == |s.log| + 1 && last.log[..|s.log|] == s.log
      && last.log[|s.log|].request == r && last.log[|s.log|].before == s.committed
      && last.log[|s.log|].after == last.committed
  {
    AcceptedIffAllowed(k, s.committed, r, newId);
    var o := Performed(k, s.committed, r, newId);
    var entered := s.(holder := Some(Holder(r, Entered)));
    var admitted := s.(holder := Some(Holder(r, Admitted)));
    var staged := s.(holder := Some(Holder(r, Staged(o.table, o.events))));
    var last := System(o.table, None, s.log + [Entry(r, s.committed, o.table, o.events)]);
    assert Next(k, s, Enter(r), entered) && Next(k, entered, Recheck, admitted);
    assert Next(k, admitted, Stage(newId), staged) && Next(k, staged, Commit, last);
    states, steps := [s, entered, admitted, staged, last], [Enter(r), Recheck, Stage(newId), Commit];
  }

  // ----- The audit trail -----

  predicate Reports(e: Entry, id: int, action: string) {
    Event(e.request.actor, id, action) in e.events
  }

  /** Whether an account is an administrator, and whether it is disabled, by the events alone. */
  function AdminByLog(first: bool, log: seq<Entry>, id: int): bool {
    if log == [] then first
    else AdminByLog(first, log[..|log| - 1], id) != Reports(log[|log| - 1], id, "change_user_role")
  }

  function DisabledByLog(first: bool, log: seq<Entry>, id: int): bool {
    if log == [] then first
    else
      var e := log[|log| - 1];
      if Reports(e, id, "disable_user") then true
      else if Reports(e, id, "enable_user") then false
      else DisabledByLog(first, log[..|log| - 1], id)
  }

  predicate PasswordByLog(log: seq<Entry>, id: int) {
    exists e | e in log :: Reports(e, id, "reset_user_password") || Reports(e, id, "change_own_password")
  }

  predicate CreatedByLog(log: seq<Entry>, id: int) {
    exists e | e in log :: Reports(e, id, "create_user")
  }

  /** The events since the first table account for every difference to the current one. */
  ghost predicate Accounted(first: Table, now: Table, log: seq<Entry>, id: int) {
    && (id in now <==> id in first || CreatedByLog(log, id))
    && (id in first ==>
          && now[id].name == first[id].name
          && ((now[id].role == "admin") == AdminByLog(first[id].role == "admin", log, id))
          && now[id].banned == DisabledByLog(first[id].banned, log, id)
          && (now[id].hash != first[id].hash ==> PasswordByLog(log, id)))
  }

  lemma LogGrows(earlier: seq<Entry>, e: Entry, id: int)
    ensures CreatedByLog(earlier + [e], id) <==> CreatedByLog(earlier, id) || Reports(e, id, "create_user")
    ensures PasswordByLog(earlier + [e], id) <==>
      PasswordByLog(earlier, id) || Reports(e, id, "reset_user_password") || Reports(e, id, "change_own_password")
  {
    var log := earlier + [e];
    assert log[|earlier|] == e;
    assert forall x :: x in log <==> x in earlier || x == e;
  }

  lemma EntryAccounts(k: Checks, first: Table, earlier: seq<Entry>, e: Entry, id: int)
    requires Accounted(first, e.before, earlier, id) && Authorized(k, e)
    ensures Accounted(first, e.after, earlier + [e], id)
  {
    var newId :| newId !in e.before && Performed(k, e.before, e.request, newId) == Accepted(e.after, e.events);
    AuditExact(k, e.before, e.request, newId, id);
    LogGrows(earlier, e, id);
    assert (earlier + [e])[..|earlier|] == earlier;
  }

  lemma {:induction false} LogAccounts(k: Checks, first: Table, now: Table, log: seq<Entry>, id: int)
    requires Linked(first, now, log) && forall e | e in log :: Authorized(k, e)
    ensures Accounted(first, now, log, id)
    decreases |log|
  {
    if log != [] {
      var n := |log| - 1;
      assert forall i | 0 <= i < n :: log[..n][i] == log[i];
      LogAccounts(k, first, log[n].before, log[..n], id);
      EntryAccounts(k, first, log[..n], log[n], id);
      assert log[..n] + [log[n]] == log;
    }
  }

  /** Over every run the audit trail alone determines which accounts exist and the role and status of
      each that was there at the start, and none of those changed its password without an event. */
  lemma AuditTrail(k: Checks, states: seq<System>, steps: seq<Step>, i: nat, id: int)
    requires Run(k, states, steps) && states[0].holder.None? && states[0].log == [] && i < |states|
    ensures Accounted(states[0].committed, states[i].committed, states[i].log, id)
  {
    AccountSafety(k, states, steps, i);
    LogAccounts(k, states[0].committed, states[i].committed, states[i].log, id);
  }

  /** Without the lock two administrators could demote each other: each change is accepted against
      the table both read, and the two row updates leave no active administrator. */
  lemma LockNeeded(k: Checks, h1: string, h2: string)
    ensures var t := map[1 := Account("ann", h1, "admin", false), 2 := Account("bob", h2, "admin", false)];
      var a := Performed(k, t, Request(1, "", Update(2, Some(false), None), ""), 3);
      var b := Performed(k, t, Request(2, "", Update(1, Some(false), None), ""), 3);
      a.Accepted? && b.Accepted? && Governed(t) && !Governed(t[2 := a.table[2]][1 := b.table[1]])
  {
    var t: Table := map[1 := Account("ann", h1, "admin", false), 2 := Account("bob", h2, "admin", false)];
    assert 1 in OtherAdmins(t, 2) && 2 in OtherAdmins(t, 1);
    var a := Performed(k, t, Request(1, "", Update(2, Some(false), None), ""), 3);
    var b := Performed(k, t, Request(2, "", Update(1, Some(false), None), ""), 3);
    assert |"user"| == 4 && |"admin"| == 5;
    assert a.table[2].role == "user" && b.table[1].role == "user";
    assert ActiveAdmin(t[1]);
  }
}
