/** The worker loop: claim, process, and retry failures until nothing is left to index. */
module EmbeddingWorker {
  import opened Basics
  import opened Tables
  import opened EmbeddingQueue
  import opened EmbeddingProtocol
  import opened EmbeddingStore
  import opened Lexical
  import Vectorizer

  /** How an attempt that does not succeed ends: reported through Fail, or with even that
      update lost, so that the lease must expire. */
  datatype Failure = Reported | Lost

  function Incomplete(db: Db): set<int> {
    set i | i in db.jobs && db.jobs[i].completed < db.jobs[i].revision
  }

  /** The store is the tables of the protocol's world. */
  ghost predicate Synced(store: Store, w: World)
    reads store
  {
    w.db == store.State() && w.nextToken == store.nextToken
  }

  ghost predicate Ready(w: World, k: int, version: Version) {
    k in w.workers && w.workers[k] == Worker(version, Idle) && w.db.setting == Some(version) && version.tagWeight > 0.0
  }

  ghost function AfterSuccess(e: Encoder, w: World, k: int, image: int): World {
    Next(e, Next(e, Next(e, w, Claim(k, image)), Snapshot(k)), Publish(k))
  }

  lemma SuccessInv(e: Encoder, w: World, k: int, image: int)
    requires Faithful(e) && Inv(e, w)
    ensures Inv(e, AfterSuccess(e, w, k, image))
  {
    StepInv(e, w, Claim(k, image));
    var held := Next(e, w, Claim(k, image));
    StepInv(e, held, Snapshot(k));
    StepInv(e, Next(e, held, Snapshot(k)), Publish(k));
  }

  /** A claim followed at once by snapshot and publish completes the job. */
  lemma SuccessCompletes(e: Encoder, w: World, k: int, version: Version, image: int)
    requires JobsOk(w) && Ready(w, k, version) && Enabled(w, Claim(k, image))
    ensures var next, t := AfterSuccess(e, w, k, image), TicketFor(w.db, image, w.nextToken);
      && next.db == Published(Claimed(w.db, image, w.nextToken), t, version,
                              e.vector(version, e.read(Claimed(w.db, image, w.nextToken), image)))
      && next.nextToken == w.nextToken + 1
      && Ready(next, k, version)
    ensures Current(Claimed(w.db, image, w.nextToken), TicketFor(w.db, image, w.nextToken))
  {
    var held := Next(e, w, Claim(k, image));
    var t := TicketFor(w.db, image, w.nextToken);
    assert held.db == Claimed(w.db, image, w.nextToken) && held.workers[k] == Worker(version, Holding(t));
    var loaded := Next(e, held, Snapshot(k));
    assert loaded.db == held.db && loaded.workers[k] == Worker(version, Loaded(t, e.read(held.db, image)));
  }

  lemma PublishedCompletes(w: World, version: Version, image: int, vector: map<string, real>)
    requires JobsOk(w) && image in w.db.jobs && Claimable(w.db.jobs[image], w.db.now) && w.db.setting == Some(version)
    ensures var after := Published(Claimed(w.db, image, w.nextToken), TicketFor(w.db, image, w.nextToken), version,
                                   vector);
      Incomplete(after) == Incomplete(w.db) - {image} && SameAnnotations(w.db, after)
    ensures image in Incomplete(w.db)
  {
    assert JobOk(w, image);
    var after := Published(Claimed(w.db, image, w.nextToken), TicketFor(w.db, image, w.nextToken), version, vector);
    assert forall i | i in w.db.jobs && i != image :: i in after.jobs && after.jobs[i] == w.db.jobs[i];
    assert after.jobs[image].completed == after.jobs[image].revision;
  }

  ghost function AfterFailure(e: Encoder, w: World, k: int, image: int, failure: Failure): World {
    Next(e, Next(e, w, Claim(k, image)), if failure.Reported? then Fail(k) else Abandon(k))
  }

  lemma FailureKeeps(e: Encoder, w: World, k: int, version: Version, image: int, failure: Failure)
    requires Faithful(e) && Inv(e, w) && Ready(w, k, version) && Enabled(w, Claim(k, image))
    ensures var next := AfterFailure(e, w, k, image, failure);
      Inv(e, next) && Ready(next, k, version) && SameAnnotations(w.db, next.db)
      && next.nextToken == w.nextToken + 1
      && next.db == if failure.Reported? then
                      FailedBy(Claimed(w.db, image, w.nextToken), TicketFor(w.db, image, w.nextToken))
                    else Claimed(w.db, image, w.nextToken)
  {
    var held := Next(e, w, Claim(k, image));
    assert held.db == Claimed(w.db, image, w.nextToken);
    assert held.workers[k] == Worker(version, Holding(TicketFor(w.db, image, w.nextToken)));
    StepInv(e, w, Claim(k, image));
    StepInv(e, held, if failure.Reported? then Fail(k) else Abandon(k));
  }

  /** Reads, encodes and publishes one claimed job. */
  method Process(store: Store, lex: Lexicon, m: Calculus, version: Version, t: Ticket) returns (ok: bool)
    requires Lawful(m) && version.tagWeight > 0.0
    modifies store`jobs, store`embeddings, store`terms
    ensures ok <==> Current(old(store.State()), t)
    ensures store.State() == if ok
      then Published(old(store.State()), t, version,
                     VectorOf(lex, m, version.tagWeight, SourceOf(old(store.State()), t.image)))
                             else old(store.State())
  {
    var source := store.Source(t);
    if source.None? {
      return false;
    }
    var vector := Vectorizer.Vectorize(lex, m, version.tagWeight, source.value);
    var published := store.Publish(t, version, vector);
    return true;
  }

  /** When an unfinished job can be claimed again. */
  function Due(j: Job): int {
    if j.status == Running && j.leaseUntil.Some? then j.leaseUntil.value + 1 else j.availableAt
  }

  ghost function SomeDue(db: Db): (deadline: int)
    ensures Incomplete(db) != {} ==> exists i :: i in Incomplete(db) && Due(db.jobs[i]) <= deadline
  {
    if Incomplete(db) == {} then db.now
    else
      HasElement(Incomplete(db));
      var i :| i in Incomplete(db);
      if Due(db.jobs[i]) < db.now then db.now else Due(db.jobs[i])
  }

  lemma UnclaimableIsNotDue(w: World, i: int)
    requires JobsOk(w) && i in Incomplete(w.db) && !Claimable(w.db.jobs[i], w.db.now)
    ensures w.db.now < Due(w.db.jobs[i])
  {
    assert JobOk(w, i);
  }

  /** What a drained queue holds. */
  ghost predicate Drained(lex: Lexicon, m: Calculus, version: Version, db: Db)
    requires Lawful(m)
  {
    forall i | Annotated(db, i) ::
      && i in db.jobs
      && (var vector := VectorOf(lex, m, version.tagWeight, SourceOf(db, i));
          || (db.jobs[i].status == Status.Ready && vector != map[] && i in db.terms && db.terms[i] == vector)
          || (db.jobs[i].status == Empty && vector == map[] && i !in db.terms))
  }

  lemma CompleteIsDrained(lex: Lexicon, m: Calculus, w: World, version: Version)
    requires Lawful(m) && version.tagWeight > 0.0 && w.db.setting == Some(version)
    requires Inv(LexicalEncoder(lex, m), w) && Incomplete(w.db) == {}
    ensures Drained(lex, m, version, w.db)
  {
    var e := LexicalEncoder(lex, m);
    LexicalFaithful(lex, m);
    forall i | Annotated(w.db, i)
      ensures i in w.db.jobs
      ensures var vector := e.vector(version, e.read(w.db, i));
          || (w.db.jobs[i].status == Status.Ready && vector != map[] && i in w.db.terms && w.db.terms[i] == vector)
          || (w.db.jobs[i].status == Empty && vector == map[] && i !in w.db.terms)
    {
      assert i !in Incomplete(w.db);
      assert JobOk(w, i) && VectorOk(e, w.db, i);
      assert e.vector(version, e.read(w.db, i)) == map[] <==> e.vector(Version(1.0), e.read(w.db, i)) == map[];
    }
  }

  /** The loop's state between iterations. */
  ghost predicate Between(store: Store, e: Encoder, w: World, k: int, version: Version)
    reads store
  {
    Synced(store, w) && Inv(e, w) && Ready(w, k, version)
  }

  ghost predicate JustClaimed(store: Store, w: World, k: int, t: Ticket)
    reads store
  {
    && Enabled(w, Claim(k, t.image)) && t == TicketFor(w.db, t.image, w.nextToken)
    && store.State() == Claimed(w.db, t.image, w.nextToken) && store.nextToken == w.nextToken + 1
  }

  method FailingAttempt(store: Store, t: Ticket, failure: Failure, ghost e: Encoder, ghost w: World, ghost k: int,
                        ghost version: Version)
    returns (ghost next: World)
    requires Faithful(e) && Inv(e, w) && Ready(w, k, version) && JustClaimed(store, w, k, t)
    modifies store`jobs
    ensures Between(store, e, next, k, version) && SameAnnotations(w.db, next.db)
  {
    FailureKeeps(e, w, k, version, t.image, failure);
    if failure.Reported? {
      store.Fail(t);
    }
    next := AfterFailure(e, w, k, t.image, failure);
  }

  method SuccessfulAttempt(store: Store, lex: Lexicon, m: Calculus, version: Version, t: Ticket, ghost w: World,
                           ghost k: int)
    returns (ghost next: World)
    requires Lawful(m) && Inv(LexicalEncoder(lex, m), w) && Ready(w, k, version) && JustClaimed(store, w, k, t)
    modifies store`jobs, store`embeddings, store`terms
    ensures Between(store, LexicalEncoder(lex, m), next, k, version) && SameAnnotations(w.db, next.db)
    ensures Incomplete(next.db) == Incomplete(w.db) - {t.image} && t.image in Incomplete(w.db)
  {
    ghost var e := LexicalEncoder(lex, m);
    LexicalFaithful(lex, m);
    SuccessInv(e, w, k, t.image);
    SuccessCompletes(e, w, k, version, t.image);
    PublishedCompletes(w, version, t.image, e.vector(version, e.read(Claimed(w.db, t.image, w.nextToken), t.image)));
    var ok := Process(store, lex, m, version, t);
    next := AfterSuccess(e, w, k, t.image);
  }

  method Wait(store: Store, ghost e: Encoder, ghost w: World, ghost k: int, ghost version: Version)
    returns (ghost next: World)
    requires Faithful(e) && Between(store, e, w, k, version)
    modifies store`now
    ensures Between(store, e, next, k, version)
    ensures next.db == w.db.(now := w.db.now + 1)
  {
    StepInv(e, w, Tick(1));
    store.Sleep(1);
    next := Next(e, w, Tick(1));
  }

  /** With no more annotation writes and only finitely many failing attempts, wherever among the
      attempts they fall, the loop ends, and every annotated image then holds its right vector, or
      nothing when there is nothing to index. plan tells how the first attempts end. */
  method Run(store: Store, lex: Lexicon, m: Calculus, version: Version, plan: seq<Option<Failure>>, ghost k: int,
             ghost w0: World)
    returns (ghost w: World)
    requires Lawful(m) && Between(store, LexicalEncoder(lex, m), w0, k, version)
    modifies store
    ensures Between(store, LexicalEncoder(lex, m), w, k, version)
    ensures SameAnnotations(old(store.State()), store.State())
    ensures Drained(lex, m, version, store.State())
  {
    ghost var e := LexicalEncoder(lex, m);
    LexicalFaithful(lex, m);
    w := w0;
    var attempts := 0;
    ghost var deadline := SomeDue(w.db);
    while Incomplete(store.State()) != {}
      invariant Between(store, e, w, k, version)
      invariant SameAnnotations(old(store.State()), w.db)
      invariant attempts <= |plan|
      invariant Incomplete(w.db) != {} ==> exists i :: i in Incomplete(w.db) && Due(w.db.jobs[i]) <= deadline
      decreases |plan| - attempts, Incomplete(w.db), deadline - w.db.now
    {
      var claimed := store.Claim();
      if claimed.None? {
        ghost var i :| i in Incomplete(w.db) && Due(w.db.jobs[i]) <= deadline;
        UnclaimableIsNotDue(w, i);
        w := Wait(store, e, w, k, version);
        assert i in Incomplete(w.db);
      } else {
        if attempts < |plan| && plan[attempts].Some? {
          w := FailingAttempt(store, claimed.value, plan[attempts].value, e, w, k, version);
        } else {
          w := SuccessfulAttempt(store, lex, m, version, claimed.value, w, k);
        }
        attempts := Min(attempts + 1, |plan|);
        deadline := SomeDue(w.db);
      }
    }
    CompleteIsDrained(lex, m, w, version);
  }
}
