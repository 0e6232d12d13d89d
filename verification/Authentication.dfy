/** Basic authentication with a cache of password proofs, and why the cache cannot be observed. */
module Authentication {
  import opened Basics
  import Accounts

  datatype Row = Row(id: int, name: string, hash: string, role: string, banned: bool)

  /** The user table by its unique name. */
  type Rows = map<string, Row>

  datatype User = User(id: int, name: string, admin: bool)

  /** A proof that some password matched a hash. */
  datatype Proof = Proof(user: User, hash: string, expires: int)

  type Cache = map<string, Proof>

  datatype Config = Config(mac: string -> string, verify: (string, string) -> bool, ttl: int)

  /** The keyed digest is taken to be collision free. */
  ghost predicate Lawful(c: Config) {
    forall a, b :: c.mac(a) == c.mac(b) ==> a == b
  }

  /** PostgreSQL text holds no NUL, so no stored name does. */
  ghost predicate CleanNames(rows: Rows) {
    forall name | name in rows :: '\0' !in name
  }

  function Key(c: Config, username: string, password: string): string {
    c.mac(username + "\0" + password)
  }

  function Account(row: Row): User {
    User(row.id, row.name, row.role == "admin")
  }

  /** What authentication without a cache answers. */
  function Uncached(c: Config, rows: Rows, username: string, password: string): Option<User> {
    if username == "" || password == "" || username !in rows || rows[username].banned then None
    else if c.verify(rows[username].hash, password) then Some(Account(rows[username]))
    else None
  }

  function Lookup(cache: Cache, key: string): Option<Proof> {
    if key in cache then Some(cache[key]) else None
  }

  predicate Fresh(entry: Option<Proof>, now: int, row: Row) {
    entry.Some? && now < entry.value.expires && entry.value.hash == row.hash && entry.value.user.id == row.id
  }

  /** The answer, and the proof to store when the password was verified. */
  datatype Decision = Decision(user: Option<User>, store: Option<Proof>)

  /** entry and now are what was read first, rows what the query then saw. */
  function Decide(c: Config, entry: Option<Proof>, now: int, rows: Rows, username: string, password: string): Decision {
    if username == "" || password == "" || username !in rows || rows[username].banned then Decision(None, None)
    else
      var row := rows[username];
      if Fresh(entry, now, row) then Decision(Some(Account(row)), None)
      else if c.verify(row.hash, password)
        then Decision(Some(Account(row)), Some(Proof(Account(row), row.hash, now + c.ttl)))
      else Decision(None, None)
  }

  function Purged(cache: Cache, now: int): Cache {
    map k | k in cache && now < cache[k].expires :: cache[k]
  }

  function Stored(c: Config, cache: Cache, now: int, username: string, password: string, proof: Proof): Cache {
    Purged(cache, now)[Key(c, username, password) := proof]
  }

  // ----- Keys -----

  function FirstNul(u: string): (n: nat)
    requires '\0' in u
    ensures n < |u| && u[n] == '\0' && '\0' !in u[..n]
  {
    if u[0] == '\0' then 0 else
      var n := FirstNul(u[1..]);
      assert u[..n + 1] == [u[0]] + u[1..][..n];
      n + 1
  }

  lemma FirstNulAfter(a: string, p: string)
    requires '\0' !in a
    ensures '\0' in a + "\0" + p && FirstNul(a + "\0" + p) == |a|
  {
    var s := a + "\0" + p;
    assert s[|a|] == '\0';
    var n := FirstNul(s);
    assert forall i | 0 <= i < |a| :: s[i] == a[i];
    assert forall i | 0 <= i < n :: s[..n][i] == s[i];
  }

  lemma PairsDiffer(a: string, p: string, b: string, q: string)
    requires '\0' !in a && '\0' !in b && a + "\0" + p == b + "\0" + q
    ensures a == b && p == q
  {
    var s, t := a + "\0" + p, b + "\0" + q;
    FirstNulAfter(a, p);
    FirstNulAfter(b, q);
    assert s[..|a|] == a && t[..|b|] == b;
    assert s[|a| + 1..] == p && t[|b| + 1..] == q;
  }

  /** A username's keys are its own, against every NUL-free username and all passwords, exactly
      when it has no NUL itself. */
  lemma KeyInjectiveIff(c: Config, u: string)
    requires Lawful(c)
    ensures (forall p, v, q | '\0' !in v :: Key(c, u, p) == Key(c, v, q) ==> u == v && p == q) <==> '\0' !in u
  {
    if '\0' !in u {
      forall p, v, q | '\0' !in v && Key(c, u, p) == Key(c, v, q) ensures u == v && p == q {
        PairsDiffer(u, p, v, q);
      }
    } else {
      var n := FirstNul(u);
      var v, rest := u[..n], u[n + 1..];
      assert u == v + "\0" + rest;
      assert u + "\0" + "" == v + "\0" + (rest + "\0");
      assert Key(c, u, "") == Key(c, v, rest + "\0");
      assert '\0' !in v && u != v;
    }
  }

  // ----- Soundness of the cache -----

  /** The entry under a pair's key proves the pair's password. */
  ghost predicate Proves(c: Config, entry: Option<Proof>, username: string, password: string) {
    entry.Some? && '\0' !in username ==> c.verify(entry.value.hash, password)
  }

  ghost predicate Sound(c: Config, cache: Cache) {
    forall u, p :: Proves(c, Lookup(cache, Key(c, u, p)), u, p)
  }

  /** Whatever sound entry was read, at whatever time, the answer is the uncached one. */
  lemma DecideIsUncached(c: Config, entry: Option<Proof>, now: int, rows: Rows, username: string, password: string)
    requires CleanNames(rows) && Proves(c, entry, username, password)
    ensures Decide(c, entry, now, rows, username, password).user == Uncached(c, rows, username, password)
  {
  }

  /** Storing a decision's proof keeps the cache sound. */
  lemma StoredSound(c: Config, cache: Cache, entry: Option<Proof>, now: int, rows: Rows, username: string,
                    password: string)
    requires Lawful(c) && Sound(c, cache) && CleanNames(rows)
    requires Decide(c, entry, now, rows, username, password).store.Some?
    ensures Sound(c, Stored(c, cache, now, username, password,
                            Decide(c, entry, now, rows, username, password).store.value))
  {
    var proof := Decide(c, entry, now, rows, username, password).store.value;
    var after := Stored(c, cache, now, username, password, proof);
    forall u, p ensures Proves(c, Lookup(after, Key(c, u, p)), u, p) {
      assert Proves(c, Lookup(cache, Key(c, u, p)), u, p);
      if Key(c, u, p) == Key(c, username, password) && '\0' !in u { PairsDiffer(u, p, username, password); }
    }
  }

  // ----- Any interleaving of logins and table changes -----

  /** A login that has read the cache and the clock. */
  datatype Login = Login(username: string, password: string, entry: Option<Proof>, now: int)

  /** A login that has its answer and still has to store its proof. */
  datatype Pending = Pending(login: Login, proof: Proof)

  datatype Answer = Answer(rows: Rows, username: string, password: string, user: Option<User>)

  datatype World = World(rows: Rows, cache: Cache, clock: int, started: set<Login>, pending: set<Pending>,
                         answers: seq<Answer>)

  datatype Step =
    | Begin(username: string, password: string)
    | Query(login: Login)
    | Store(pending: Pending)
    | Change(rows: Rows)
    | Tick(time: int)

  ghost predicate Next(c: Config, w: World, step: Step, w': World) {
    match step
    case Begin(u, p) =>
      w' == w.(started := w.started + {Login(u, p, Lookup(w.cache, Key(c, u, p)), w.clock)})
    case Query(l) =>
      && l in w.started
      && (var d := Decide(c, l.entry, l.now, w.rows, l.username, l.password);
          w' == w.(answers := w.answers + [Answer(w.rows, l.username, l.password, d.user)],
                   pending := w.pending + if d.store.Some? then {Pending(l, d.store.value)} else {}))
    case Store(x) =>
      x in w.pending && w' == w.(cache := Stored(c, w.cache, x.login.now, x.login.username, x.login.password, x.proof))
    case Change(rows) => CleanNames(rows) && w' == w.(rows := rows)
    case Tick(time) => w' == w.(clock := time)
  }

  ghost predicate Run(c: Config, worlds: seq<World>, steps: seq<Step>) {
    && |worlds| == |steps| + 1
    && forall i | 0 <= i < |steps| :: Next(c, worlds[i], steps[i], worlds[i + 1])
  }

  ghost predicate Inv(c: Config, w: World) {
    && CleanNames(w.rows)
    && Sound(c, w.cache)
    && (forall l | l in w.started :: Proves(c, l.entry, l.username, l.password))
    && (forall x | x in w.pending :: '\0' !in x.login.username && c.verify(x.proof.hash, x.login.password))
    && (forall a | a in w.answers :: a.user == Uncached(c, a.rows, a.username, a.password))
  }

  lemma StoreInv(c: Config, w: World, x: Pending, w': World)
    requires Lawful(c) && Inv(c, w) && Next(c, w, Store(x), w')
    ensures Inv(c, w')
  {
    forall u, p ensures Proves(c, Lookup(w'.cache, Key(c, u, p)), u, p) {
      assert Proves(c, Lookup(w.cache, Key(c, u, p)), u, p);
      if Key(c, u, p) == Key(c, x.login.username, x.login.password) && '\0' !in u {
        PairsDiffer(u, p, x.login.username, x.login.password);
      }
    }
  }

  lemma QueryInv(c: Config, w: World, l: Login, w': World)
    requires Inv(c, w) && Next(c, w, Query(l), w')
    ensures Inv(c, w')
  {
    DecideIsUncached(c, l.entry, l.now, w.rows, l.username, l.password);
    forall a | a in w'.answers ensures a.user == Uncached(c, a.rows, a.username, a.password) {
      if a !in w.answers { assert a == w'.answers[|w.answers|]; }
    }
  }

  lemma StepInv(c: Config, w: World, step: Step, w': World)
    requires Lawful(c) && Inv(c, w) && Next(c, w, step, w')
    ensures Inv(c, w')
  {
    match step
    case Begin(u, p) => assert Proves(c, Lookup(w.cache, Key(c, u, p)), u, p);
    case Query(l) => QueryInv(c, w, l, w');
    case Store(x) => StoreInv(c, w, x, w');
    case _ =>
  }

  /** Over every interleaving of logins, password changes, bans, role changes and clock moves, in any
      direction, each answer is what a check without a cache gives on the rows the query saw. */
  lemma {:induction false} CacheIsInvisible(c: Config, worlds: seq<World>, steps: seq<Step>, i: nat)
    requires Lawful(c) && Run(c, worlds, steps) && i < |worlds|
    requires CleanNames(worlds[0].rows) && worlds[0].cache == map[]
    requires worlds[0].started == {} && worlds[0].pending == {} && worlds[0].answers == []
    ensures Inv(c, worlds[i])
  {
    if i > 0 {
      CacheIsInvisible(c, worlds, steps, i - 1);
      StepInv(c, worlds[i - 1], steps[i - 1], worlds[i]);
    }
  }

  // ----- Who is logged in, and as what -----

  /** A login is answered exactly when it names an account that is not banned and gives its password; the
      answer is that account, an administrator exactly when its role says so. */
  ghost predicate Truthful(c: Config, rows: Rows, username: string, password: string, user: Option<User>) {
    && (user.Some? <==>
          username != "" && password != "" && username in rows && !rows[username].banned
            && c.verify(rows[username].hash, password))
    && (user.Some? ==>
          && user.value.id == rows[username].id && user.value.name == rows[username].name
          && (user.value.admin <==> rows[username].role == "admin"))
  }

  lemma UncachedTruthful(c: Config, rows: Rows, username: string, password: string)
    ensures Truthful(c, rows, username, password, Uncached(c, rows, username, password))
  {
  }

  /** The rows are those of the user table the account handlers change. */
  ghost predicate RowsOf(rows: Rows, t: Accounts.Table) {
    forall name | name in rows ::
      var row := rows[name];
      row.id in t && t[row.id] == Accounts.Account(row.name, row.hash, row.role, row.banned)
  }

  /** Over every run each answer is truthful about the rows its query saw: who is reported as an
      administrator is an active administrator of that very table, and the other way round. */
  lemma AnswersAreTrue(c: Config, worlds: seq<World>, steps: seq<Step>, i: nat, a: Answer, t: Accounts.Table)
    requires Lawful(c) && Run(c, worlds, steps) && i < |worlds|
    requires CleanNames(worlds[0].rows) && worlds[0].cache == map[]
    requires worlds[0].started == {} && worlds[0].pending == {} && worlds[0].answers == []
    requires a in worlds[i].answers && RowsOf(a.rows, t)
    ensures Truthful(c, a.rows, a.username, a.password, a.user)
    ensures a.user.Some? ==>
      a.user.value.id in t && (a.user.value.admin <==> Accounts.ActiveAdmin(t[a.user.value.id]))
  {
    CacheIsInvisible(c, worlds, steps, i);
    UncachedTruthful(c, a.rows, a.username, a.password);
  }

  /** Whatever the cache holds, anyone may try to log in at any time, and is answered. */
  lemma LoginAnswered(c: Config, w: World, username: string, password: string)
    returns (worlds: seq<World>, steps: seq<Step>)
    ensures Run(c, worlds, steps) && worlds[0] == w
    ensures var last := worlds[|steps|];
      && last.rows == w.rows && |last.answers| == |w.answers| + 1 && last.answers[..|w.answers|] == w.answers
      && last.answers[|w.answers|].(user := None) == Answer(w.rows, username, password, None)
  {
    var l := Login(username, password, Lookup(w.cache, Key(c, username, password)), w.clock);
    var d := Decide(c, l.entry, l.now, w.rows, username, password);
    var begun := w.(started := w.started + {l});
    var last := begun.(answers := begun.answers + [Answer(w.rows, username, password, d.user)],
                       pending := begun.pending + if d.store.Some? then {Pending(l, d.store.value)} else {});
    assert Next(c, w, Begin(username, password), begun) && Next(c, begun, Query(l), last);
    worlds, steps := [w, begun, last], [Begin(username, password), Query(l)];
  }

  // ----- The handler -----

  class Authenticator {
    const config: Config
    var cache: Cache
    /** How often the slow password check ran. */
    var checks: nat

    constructor (config: Config)
      ensures this.config == config && cache == map[] && checks == 0
    {
      this.config := config;
      cache, checks := map[], 0;
    }

    method VerifyPassword(hash: string, password: string) returns (ok: bool)
      modifies this`checks
      ensures ok == config.verify(hash, password) && checks == old(checks) + 1
    {
      checks := checks + 1;
      ok := config.verify(hash, password);
    }

    method Purge(now: int)
      modifies this`cache
      ensures cache == Purged(old(cache), now)
    {
      var keys := cache.Keys;
      while keys != {}
        invariant keys <= cache.Keys <= old(cache).Keys
        invariant forall k | k in cache :: cache[k] == old(cache)[k]
        invariant forall k | k in old(cache) && k !in keys :: k in cache <==> now < old(cache)[k].expires
        decreases |keys|
      {
        var k :| k in keys;
        keys := keys - {k};
        if now >= cache[k].expires { cache := cache - {k}; }
      }
    }

    /** authenticate: the uncached answer; the cache changes, and the slow check runs, only without a
        fresh proof. */
    method Authenticate(rows: Rows, username: string, password: string, now: int) returns (user: Option<User>)
      requires Lawful(config) && CleanNames(rows) && Sound(config, cache)
      modifies this
      ensures user == Uncached(config, rows, username, password)
      ensures Truthful(config, rows, username, password, user)
      ensures var d := Decide(config, Lookup(old(cache), Key(config, username, password)), now, rows, username,
                              password);
        cache == if d.store.Some? then Stored(config, old(cache), now, username, password, d.store.value)
          else old(cache)
      ensures Sound(config, cache)
      ensures var key := Key(config, username, password);
        checks == old(checks) + if username == "" || password == "" || username !in rows || rows[username].banned
          || (key in old(cache) && now < old(cache)[key].expires && old(cache)[key].hash == rows[username].hash
              && old(cache)[key].user.id == rows[username].id) then 0 else 1
    {
      UncachedTruthful(config, rows, username, password);
      if username == "" || password == "" { return None; }
      var key := Key(config, username, password);
      var entry := Lookup(cache, key);
      assert Proves(config, entry, username, password);
      DecideIsUncached(config, entry, now, rows, username, password);
      if username !in rows || rows[username].banned { return None; }
      var row := rows[username];
      if entry.Some? && now < entry.value.expires && entry.value.hash == row.hash && entry.value.user.id == row.id {
        return Some(Account(row));
      }
      var ok := VerifyPassword(row.hash, password);
      if !ok { return None; }
      StoredSound(config, cache, entry, now, rows, username, password);
      Purge(now);
      cache := cache[key := Proof(Account(row), row.hash, now + config.ttl)];
      return Some(Account(row));
    }
  }
}
