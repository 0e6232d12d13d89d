/** The queue's database transactions, each as a function of the tables. */
module EmbeddingQueue {
  import opened Basics
  import opened Tables
  import Triggers

  const LEASE_SECONDS := 120

  /** The claim a worker holds while it processes a job. */
  datatype Ticket = Ticket(image: int, revision: nat, token: nat, attempts: nat)

  // ----- Configure -----

  function Invalidated(j: Job, now: int): Job {
    j.(revision := j.revision + 1, status := Pending, availableAt := now, token := None, leaseUntil := None,
       attempts := 0, hasError := false)
  }

  function InvalidateAll(db: Db): Db {
    db.(jobs := map i | i in db.jobs :: Invalidated(db.jobs[i], db.now))
  }

  /** Queues every annotated image that has no job yet. */
  function Backfill(db: Db, txid: nat): Db {
    db.(jobs := map i | i in db.jobs.Keys + (set x | x in db.images && Annotated(db, x)) ::
      if i in db.jobs then db.jobs[i] else Triggers.NewJob(0, txid, db.now))
  }

  function Configured(db: Db, version: Version, txid: nat): Db {
    var same := db.setting == None || db.setting == Some(version);
    Backfill((if same then db else InvalidateAll(db)).(setting := Some(version)), txid)
  }

  // ----- Claim -----

  predicate Claimable(j: Job, now: int) {
    || ((j.status == Pending || j.status == Failed) && j.availableAt <= now)
    || (j.status == Running && j.leaseUntil.Some? && j.leaseUntil.value < now)
  }

  function ClaimedJob(j: Job, token: nat, now: int): Job {
    j.(status := Running, token := Some(token), leaseUntil := Some(now + LEASE_SECONDS), attempts := j.attempts + 1)
  }

  function Claimed(db: Db, image: int, token: nat): Db
    requires image in db.jobs
  {
    db.(jobs := db.jobs[image := ClaimedJob(db.jobs[image], token, db.now)])
  }

  function TicketFor(db: Db, image: int, token: nat): Ticket
    requires image in db.jobs
  {
    Ticket(image, db.jobs[image].revision, token, db.jobs[image].attempts + 1)
  }

  /** priority DESC, available_at, image_id */
  predicate ClaimsBefore(db: Db, a: int, b: int)
    requires a in db.jobs && b in db.jobs
  {
    var x, y := db.jobs[a], db.jobs[b];
    || x.priority > y.priority
    || (x.priority == y.priority && (x.availableAt < y.availableAt || (x.availableAt == y.availableAt && a < b)))
  }

  /** A job written out: pending at revision 1 since now, with the priority of a backfilled image. */
  ghost predicate FreshJob(j: Job, txid: nat, now: int) {
    j == Job(1, 0, Pending, txid, 0, now, None, None, 0, false)
  }

  /** What configuring a version leaves. With the version already set, or none, the jobs there are stay as
      they are; with another, each starts over at its next revision. Either way every annotated image
      without a job gets one, and nothing else changes. */
  ghost predicate Reconfigured(db: Db, after: Db, version: Version, txid: nat) {
    && after == db.(jobs := after.jobs, setting := Some(version))
    && (forall i :: i in after.jobs <==> i in db.jobs || (i in db.images && AnnotatedNow(db, i)))
    && (forall i | i in after.jobs && i !in db.jobs :: FreshJob(after.jobs[i], txid, db.now))
    && (db.setting == None || db.setting == Some(version) ==> forall i | i in db.jobs :: after.jobs[i] == db.jobs[i])
    && (db.setting != None && db.setting != Some(version) ==> forall i | i in db.jobs ::
          var was := db.jobs[i];
          after.jobs[i] == Job(was.revision + 1, was.completed, Pending, was.txid, was.priority, db.now, None, None, 0,
                               false))
  }

  ghost predicate AnnotatedNow(db: Db, i: int) {
    || (exists l :: l in db.links && db.links[l].image == i)
    || (exists m :: m in db.messages && db.messages[m].image == i)
  }

  lemma ConfiguredIs(db: Db, version: Version, txid: nat)
    ensures Reconfigured(db, Configured(db, version, txid), version, txid)
  {
  }

  /** No other claimable job has a higher priority than this image's, and none of the same priority was due
      earlier, or as early with a smaller id. */
  ghost predicate FirstInQueue(db: Db, image: int)
    requires image in db.jobs
  {
    forall i | i in db.jobs && Claimable(db.jobs[i], db.now) && i != image ::
      && db.jobs[i].priority <= db.jobs[image].priority
      && (db.jobs[i].priority == db.jobs[image].priority ==>
            && db.jobs[image].availableAt <= db.jobs[i].availableAt
            && (db.jobs[i].availableAt == db.jobs[image].availableAt ==> image < i))
  }

  /** The queue's order: higher priorities first; among equal ones the longest due first, then the smaller id. */
  lemma QueueOrder(db: Db, a: int, b: int)
    requires a in db.jobs && b in db.jobs && a != b
    ensures ClaimsBefore(db, a, b) <==>
            && db.jobs[b].priority <= db.jobs[a].priority
            && (db.jobs[a].priority == db.jobs[b].priority ==>
                  && db.jobs[a].availableAt <= db.jobs[b].availableAt
                  && (db.jobs[a].availableAt == db.jobs[b].availableAt ==> a < b))
    ensures ClaimsBefore(db, a, b) <==> !ClaimsBefore(db, b, a)
  {
  }

  /** A committed annotation transaction leaves an image it touched claimable at that very moment, ahead of
      every image a reconfiguration then queues for the first time. */
  lemma MarkedFirst(db: Db, txid: nat, ws: seq<Triggers.Write>, image: int, version: Version, later: nat, other: int)
    requires WellFormed(db) && (forall i | i in db.jobs :: db.jobs[i].txid != txid)
    requires Triggers.ApplyAll(db, txid, ws).Some? && Triggers.Touched(db, txid, ws, image)
    requires image in Triggers.Transaction(db, txid, ws).images
    requires db.setting == None || db.setting == Some(version)
    ensures var marked := Triggers.Transaction(db, txid, ws);
      var after := Configured(marked, version, later);
      && image in marked.jobs && Claimable(marked.jobs[image], db.now)
      && (other in after.jobs && other !in marked.jobs ==>
            && Claimable(after.jobs[other], db.now) && ClaimsBefore(after, image, other))
  {
    Triggers.Coalescing(db, txid, ws, image);
    Triggers.TransactionFrame(db, txid, ws);
    var marked := Triggers.Transaction(db, txid, ws);
    ConfiguredIs(marked, version, later);
    assert marked.jobs[image].priority == 1;
  }

  // ----- Ownership -----

  /** The ticket's revision and token are the row's. */
  predicate Current(db: Db, t: Ticket) {
    t.image in db.jobs && db.jobs[t.image].revision == t.revision && db.jobs[t.image].token == Some(t.token)
  }

  predicate CanPublish(db: Db, t: Ticket, version: Version) {
    && Current(db, t)
    && db.jobs[t.image].status == Running
    && db.jobs[t.image].leaseUntil.Some? && db.jobs[t.image].leaseUntil.value > db.now
    && db.setting == Some(version)
  }

  // ----- Publish, heartbeat, fail -----

  function CompletedJob(j: Job, status: Status): Job {
    j.(status := status, completed := j.revision, token := None, leaseUntil := None, attempts := 0, hasError := false)
  }

  function Published(db: Db, t: Ticket, version: Version, vector: map<string, real>): Db {
    if !CanPublish(db, t, version) then db
    else if vector == map[] then
      db.(embeddings := db.embeddings - {t.image}, terms := db.terms - {t.image},
          jobs := db.jobs[t.image := CompletedJob(db.jobs[t.image], Empty)])
    else
      db.(embeddings := db.embeddings[t.image := Embedding(version, t.revision)], terms := db.terms[t.image := vector],
          jobs := db.jobs[t.image := CompletedJob(db.jobs[t.image], Ready)])
  }

  function Renewed(db: Db, t: Ticket): Db {
    if !Current(db, t) || db.jobs[t.image].status != Running then db
    else db.(jobs := db.jobs[t.image := db.jobs[t.image].(leaseUntil := Some(db.now + LEASE_SECONDS))])
  }

  function PowerOfTwo(n: nat): nat {
    if n == 0 then 1 else 2 * PowerOfTwo(n - 1)
  }

  /** Exponential, capped at ten minutes. */
  function Backoff(attempts: nat): nat {
    Min(600, 5 * PowerOfTwo(Min(attempts, 7)))
  }

  function FailedJob(j: Job, attempts: nat, now: int): Job {
    j.(status := Failed, availableAt := now + Backoff(attempts), token := None, leaseUntil := None, hasError := true)
  }

  function FailedBy(db: Db, t: Ticket): Db {
    if !Current(db, t) then db
    else db.(jobs := db.jobs[t.image := FailedJob(db.jobs[t.image], t.attempts, db.now)])
  }

  lemma PublishKeeps(db: Db, t: Ticket, version: Version, vector: map<string, real>)
    ensures var after := Published(db, t, version, vector);
      && after.jobs.Keys == db.jobs.Keys && after.images == db.images && after.nextImage == db.nextImage
      && forall i | i in db.jobs :: after.jobs[i].priority == db.jobs[i].priority
  {
  }

  // ----- Leases and retries -----

  /** A claim keeps everyone else off the job for two minutes, and a heartbeat by its holder starts
      the two minutes again. */
  lemma LeaseExcludes(db: Db, image: int, token: nat, beat: int, later: int)
    requires image in db.jobs
    ensures var held := Claimed(db, image, token);
      && (Claimable(held.jobs[image], later) <==> later > db.now + LEASE_SECONDS)
      && (Claimable(Renewed(held.(now := beat), TicketFor(db, image, token)).jobs[image], later) <==>
          later > beat + LEASE_SECONDS)
  {
    var held := Claimed(db, image, token);
    assert Current(held.(now := beat), TicketFor(db, image, token));
  }

  /** A failed attempt is retried after 5, 10, 20, ... seconds, doubling up to ten minutes. */
  lemma {:induction false} BackoffDoubles(attempts: nat)
    ensures Backoff(0) == 5 && Backoff(attempts + 1) == Min(600, 2 * Backoff(attempts)) && 5 <= Backoff(attempts) <= 600
  {
    PowersOfTwo();
    assert Min(attempts, 7) in {0, 1, 2, 3, 4, 5, 6, 7};
  }

  lemma PowersOfTwo()
    ensures PowerOfTwo(0) == 1 && PowerOfTwo(1) == 2 && PowerOfTwo(2) == 4 && PowerOfTwo(3) == 8
    ensures PowerOfTwo(4) == 16 && PowerOfTwo(5) == 32 && PowerOfTwo(6) == 64 && PowerOfTwo(7) == 128
  {
    assert PowerOfTwo(2) == 4;
    assert PowerOfTwo(4) == 16;
    assert PowerOfTwo(6) == 64;
  }

  lemma RetryAfterBackoff(db: Db, t: Ticket, later: int)
    requires Current(db, t)
    ensures Claimable(FailedBy(db, t).jobs[t.image], later) <==> later >= db.now + Backoff(t.attempts)
  {
  }
}
