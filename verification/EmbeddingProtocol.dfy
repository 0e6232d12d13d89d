/** Any number of workers, annotators and reconfigurations, interleaved one database
    transaction at a time, and what every reachable state satisfies. */
module EmbeddingProtocol {
  import opened Basics
  import opened Tables
  import opened Triggers
  import opened EmbeddingQueue
  import opened Lexical
  import Ranking

  /** How a worker reads an image's annotations and turns them into a vector. The protocol
      needs only that both ignore the order of annotations and dates, and that emptiness does
      not depend on the weight; LexicalFaithful shows the lexical encoder is of this kind. */
  datatype Encoder = Encoder(read: (Db, int) -> Source, vector: (Version, Source) -> map<string, real>)

  ghost predicate Faithful(e: Encoder) {
    && (forall a, b, i {:trigger e.read(a, i), e.read(b, i)} ::
        FactsOf(a, i) == FactsOf(b, i) ==> SameBags(e.read(a, i), e.read(b, i)))
    && (forall v, a, b {:trigger e.vector(v, a), e.vector(v, b)} :: SameBags(a, b) ==> e.vector(v, a) == e.vector(v, b))
    && (forall v: Version, u: Version, s {:trigger e.vector(v, s), e.vector(u, s)} ::
        v.tagWeight > 0.0 && u.tagWeight > 0.0 ==>
          (e.vector(v, s) == map[] <==> e.vector(u, s) == map[]))
  }

  ghost function LexicalEncoder(lex: Lexicon, m: Calculus): Encoder
    requires Lawful(m)
  {
    Encoder((db, i) => SourceOf(db, i),
            (version: Version, source: Source) => VectorOf(lex, m, version.tagWeight, source))
  }

  lemma LexicalFaithful(lex: Lexicon, m: Calculus)
    requires Lawful(m)
    ensures Faithful(LexicalEncoder(lex, m))
  {
    var e := LexicalEncoder(lex, m);
    forall a: Db, b: Db, i: int | FactsOf(a, i) == FactsOf(b, i) ensures SameBags(e.read(a, i), e.read(b, i)) {
      SourceFollowsFacts(a, b, i);
    }
    forall v: Version, a: Source, b: Source | SameBags(a, b) ensures e.vector(v, a) == e.vector(v, b) {
      VectorOrderFree(lex, m, v.tagWeight, a, b);
    }
    forall v: Version, u: Version, s: Source | v.tagWeight > 0.0 && u.tagWeight > 0.0
      ensures e.vector(v, s) == map[] <==> e.vector(u, s) == map[] {
      EmptinessIgnoresWeight(lex, m, v.tagWeight, u.tagWeight, s);
    }
  }

  datatype Phase = Idle | Holding(ticket: Ticket) | Loaded(ticket: Ticket, source: Source)

  datatype Worker = Worker(version: Version, phase: Phase)

  datatype World = World(db: Db, workers: map<int, Worker>, nextToken: nat, nextTxid: nat, published: seq<(int, nat)>)

  datatype Step =
    | Annotate(ws: seq<Write>)
    | Rollback(ws: seq<Write>)
    | Configure(worker: int, version: Version)
    | Claim(worker: int, image: int)
    | Snapshot(worker: int)
    | Heartbeat(worker: int)
    | Publish(worker: int)
    | Fail(worker: int)
    | Abandon(worker: int)
    | Crash(worker: int)
    | Tick(seconds: nat)

  predicate Enabled(w: World, s: Step) {
    match s
    case Configure(_, version) => version.tagWeight > 0.0
    case Claim(k, image) =>
      k in w.workers && w.workers[k].phase.Idle? && image in w.db.jobs && Claimable(w.db.jobs[image], w.db.now)
    case Snapshot(k) => k in w.workers && w.workers[k].phase.Holding? && Current(w.db, w.workers[k].phase.ticket)
    case Heartbeat(k) => k in w.workers && !w.workers[k].phase.Idle?
    case Publish(k) => k in w.workers && w.workers[k].phase.Loaded?
    case Fail(k) => k in w.workers && !w.workers[k].phase.Idle?
    case Abandon(k) => k in w.workers
    case _ => true
  }

  function InPhase(w: World, k: int, phase: Phase): map<int, Worker>
    requires k in w.workers
  {
    w.workers[k := w.workers[k].(phase := phase)]
  }

  /** One transaction, or one local event of a worker. A step that is not enabled does nothing. */
  ghost function Next(e: Encoder, w: World, s: Step): World
  {
    if !Enabled(w, s) then w
    else match s
      case Annotate(ws) => w.(db := Transaction(w.db, w.nextTxid, ws), nextTxid := w.nextTxid + 1)
      case Rollback(_) => w.(nextTxid := w.nextTxid + 1)
      case Configure(k, version) =>
        w.(db := Configured(w.db, version, w.nextTxid), workers := w.workers[k := Worker(version, Idle)],
           nextTxid := w.nextTxid + 1)
      case Claim(k, image) =>
        w.(db := Claimed(w.db, image, w.nextToken),
           workers := InPhase(w, k, Holding(TicketFor(w.db, image, w.nextToken))),
           nextToken := w.nextToken + 1)
      case Snapshot(k) =>
        var t := w.workers[k].phase.ticket;
        w.(workers := InPhase(w, k, Loaded(t, e.read(w.db, t.image))))
      case Heartbeat(k) => w.(db := Renewed(w.db, w.workers[k].phase.ticket))
      case Publish(k) =>
        var t, version := w.workers[k].phase.ticket, w.workers[k].version;
        w.(db := Published(w.db, t, version, e.vector(version, w.workers[k].phase.source)),
           workers := InPhase(w, k, Idle),
           published := w.published + if CanPublish(w.db, t, version) then [(t.image, t.revision)] else [])
      case Fail(k) => w.(db := FailedBy(w.db, w.workers[k].phase.ticket), workers := InPhase(w, k, Idle))
      case Abandon(k) => w.(workers := InPhase(w, k, Idle))
      case Crash(k) => w.(workers := w.workers - {k})
      case Tick(seconds) => w.(db := w.db.(now := w.db.now + seconds))
  }

  ghost function Run(e: Encoder, w: World, steps: seq<Step>): World
    decreases |steps|
  {
    if steps == [] then w else Run(e, Next(e, w, steps[0]), steps[1..])
  }

  /** The state the migration leaves: every annotated image queued, nothing built, no setting. */
  ghost predicate Initial(w: World) {
    && WellFormed(w.db)
    && w.db.embeddings == map[] && w.db.terms == map[] && w.db.setting == None
    && w.workers == map[] && w.published == []
    && (forall i :: i in w.db.jobs <==> i in w.db.images && Annotated(w.db, i))
    && (forall i | i in w.db.jobs :: exists txid: nat, now :: txid < w.nextTxid && w.db.jobs[i] == NewJob(0, txid, now))
  }

  // ----- The invariant -----

  ghost predicate JobOk(w: World, i: int)
    requires i in w.db.jobs
  {
    var j := w.db.jobs[i];
    && j.txid < w.nextTxid
    && (j.token.Some? ==> j.token.value < w.nextToken)
    && (j.status == Running <==> j.token.Some?) && (j.status == Running <==> j.leaseUntil.Some?)
    && j.completed <= j.revision
    && (j.completed == j.revision <==> j.status == Ready || j.status == Empty)
    && (j.status == Ready ==>
          && i in w.db.embeddings && w.db.embeddings[i].builtRevision == j.revision
          && w.db.setting == Some(w.db.embeddings[i].version))
    && (j.status == Empty ==> i !in w.db.embeddings)
  }

  ghost predicate JobsOk(w: World) {
    forall i | i in w.db.jobs :: JobOk(w, i)
  }

  ghost predicate EmbeddingsOk(w: World) {
    forall i | i in w.db.embeddings ::
      && i in w.db.jobs && i in w.db.terms && w.db.terms[i] != map[]
      && w.db.embeddings[i].builtRevision <= w.db.jobs[i].completed
      && w.db.embeddings[i].version.tagWeight > 0.0
  }

  /** A stored vector whose revision is current is the vector of the current annotations, and
      an empty result means there is nothing to index. */
  ghost predicate VectorOk(e: Encoder, db: Db, i: int)
    requires i in db.jobs
  {
    && (i in db.embeddings && i in db.terms && db.embeddings[i].builtRevision == db.jobs[i].revision ==>
          db.terms[i] == e.vector(db.embeddings[i].version, e.read(db, i)))
    && (db.jobs[i].status == Empty ==> e.vector(Version(1.0), e.read(db, i)) == map[])
  }

  ghost predicate VectorsOk(e: Encoder, w: World)
  {
    forall i | i in w.db.jobs :: VectorOk(e, w.db, i)
  }

  ghost predicate AnnotatedHaveJobs(w: World) {
    forall i | Annotated(w.db, i) :: i in w.db.jobs
  }

  /** The image once had a job: it still has one, or was deleted and its id is never reused. */
  ghost predicate Enrolled(db: Db, i: int) {
    i < db.nextImage && (i in db.images ==> i in db.jobs)
  }

  /** A snapshot stays accurate for as long as its revision is the row's. */
  ghost predicate TicketOk(e: Encoder, w: World, worker: Worker)
  {
    && worker.version.tagWeight > 0.0
    && (!worker.phase.Idle? ==>
          var t := worker.phase.ticket;
          && t.token < w.nextToken && Enrolled(w.db, t.image)
          && (t.image in w.db.jobs ==> t.revision <= w.db.jobs[t.image].revision)
          && (worker.phase.Loaded? && t.image in w.db.jobs && t.revision == w.db.jobs[t.image].revision ==>
                SameBags(worker.phase.source, e.read(w.db, t.image))))
  }

  ghost predicate TicketsOk(e: Encoder, w: World) {
    forall k | k in w.workers :: TicketOk(e, w, w.workers[k])
  }

  ghost predicate LogOk(w: World) {
    && Ranking.Distinct(w.published)
    && (forall p | p in w.published :: Enrolled(w.db, p.0) && (p.0 in w.db.jobs ==> p.1 <= w.db.jobs[p.0].completed))
  }

  ghost predicate Inv(e: Encoder, w: World)
  {
    && WellFormed(w.db) && JobsOk(w) && EmbeddingsOk(w) && VectorsOk(e, w)
    && AnnotatedHaveJobs(w) && TicketsOk(e, w) && LogOk(w)
  }

  lemma InitialInv(e: Encoder, w: World)
    requires Faithful(e) && Initial(w)
    ensures Inv(e, w)
  {
    forall i | Annotated(w.db, i) ensures i in w.db.jobs {
    }
  }

  /** The migration, on any tables without an index yet, leaves an initial state. */
  lemma MigrationStarts(db: Db, txid: nat)
    requires WellFormed(db) && db.jobs == map[] && db.embeddings == map[] && db.terms == map[] && db.setting == None
    ensures Initial(World(Backfill(db, txid), map[], 0, txid + 1, []))
  {
    var w := World(Backfill(db, txid), map[], 0, txid + 1, []);
    forall i ensures i in w.db.jobs <==> i in w.db.images && Annotated(w.db, i) {
      assert Annotated(w.db, i) <==> Annotated(db, i);
    }
    forall i | i in w.db.jobs ensures txid < w.nextTxid && w.db.jobs[i] == NewJob(0, txid, db.now) {}
  }

  // ----- Annotation transactions -----

  lemma AnnotateInv(e: Encoder, w: World, ws: seq<Write>)
    requires Faithful(e) && Inv(e, w)
    ensures Inv(e, Next(e, w, Annotate(ws)))
  {
    var next := Next(e, w, Annotate(ws));
    if ApplyAll(w.db, w.nextTxid, ws).Some? {
      TransactionFrame(w.db, w.nextTxid, ws);
      forall i | i in next.db.images ensures Followed(w, next, i) {
        ImageFollowed(e, w, ws, i);
      }
      FollowedJobs(e, w, next);
      FollowedVectors(e, w, next);
      FollowedTickets(e, w, next);
    }
  }

  /** An annotation transaction seen from one image: either nothing changed, or its job moved
      to a fresh pending revision. */
  ghost predicate Followed(w: World, next: World, i: int) {
    || (JobOf(next.db, i) == JobOf(w.db, i) && FactsOf(next.db, i) == FactsOf(w.db, i))
    || (i in next.db.jobs && next.db.jobs[i] == Marked(JobOf(w.db, i), w.nextTxid, w.db.now))
  }

  lemma ImageFollowed(e: Encoder, w: World, ws: seq<Write>, i: int)
    requires Faithful(e) && Inv(e, w) && ApplyAll(w.db, w.nextTxid, ws).Some?
    requires i in ApplyAll(w.db, w.nextTxid, ws).value.images
    ensures Followed(w, Next(e, w, Annotate(ws)), i)
  {
    ApplyAllTracks(w.db, w.nextTxid, ws, i);
    if !Touched(w.db, w.nextTxid, ws, i) {
      UntouchedFacts(w.db, w.nextTxid, ws, i);
    }
  }

  ghost predicate AfterWrites(w: World, next: World) {
    && Frame(w.db, next.db)
    && next == w.(db := next.db, nextTxid := w.nextTxid + 1)
    && (forall i | i in next.db.images :: Followed(w, next, i))
  }

  lemma FollowedJobs(e: Encoder, w: World, next: World)
    requires Faithful(e) && Inv(e, w) && AfterWrites(w, next)
    ensures JobsOk(next) && EmbeddingsOk(next) && LogOk(next) && AnnotatedHaveJobs(next)
  {
    forall i | i in next.db.jobs ensures JobOk(next, i) {
      assert Followed(w, next, i);
    }
    forall i | Annotated(next.db, i) ensures i in next.db.jobs {
      assert Followed(w, next, i);
      AnnotatedByFacts(next.db, i);
      AnnotatedByFacts(w.db, i);
    }
    forall i | i in next.db.embeddings ensures i in next.db.jobs && i in next.db.terms && next.db.terms[i] != map[]
        && next.db.embeddings[i].builtRevision <= next.db.jobs[i].completed
        && next.db.embeddings[i].version.tagWeight > 0.0 {
      assert Followed(w, next, i);
    }
    forall p | p in next.published
      ensures Enrolled(next.db, p.0) && (p.0 in next.db.jobs ==> p.1 <= next.db.jobs[p.0].completed)
    {
      if p.0 in next.db.images { assert Followed(w, next, p.0); }
    }
  }

  lemma FollowedVectors(e: Encoder, w: World, next: World)
    requires Faithful(e) && Inv(e, w) && AfterWrites(w, next)
    ensures VectorsOk(e, next)
  {
    forall i | i in next.db.jobs ensures VectorOk(e, next.db, i) {
      FollowedVector(e, w, next, i);
    }
  }

  lemma FollowedVector(e: Encoder, w: World, next: World, i: int)
    requires Faithful(e) && Inv(e, w) && AfterWrites(w, next) && i in next.db.jobs
    ensures VectorOk(e, next.db, i)
  {
    assert Followed(w, next, i);
    if JobOf(next.db, i) == JobOf(w.db, i) && FactsOf(next.db, i) == FactsOf(w.db, i) {
      assert SameBags(e.read(w.db, i), e.read(next.db, i));
      assert VectorOk(e, w.db, i);
    } else if i in w.db.jobs {
      assert JobOk(w, i);
    }
  }

  lemma FollowedTickets(e: Encoder, w: World, next: World)
    requires Faithful(e) && Inv(e, w) && AfterWrites(w, next)
    ensures TicketsOk(e, next)
  {
    forall k | k in next.workers ensures TicketOk(e, next, next.workers[k]) {
      assert TicketOk(e, w, w.workers[k]);
      if !next.workers[k].phase.Idle? {
        var t := next.workers[k].phase.ticket;
        if t.image in next.db.images {
          assert Followed(w, next, t.image);
          assert FactsOf(next.db, t.image) == FactsOf(w.db, t.image) ==>
            SameBags(e.read(w.db, t.image), e.read(next.db, t.image));
        }
      }
    }
  }

  // ----- Steps that leave annotations alone -----

  ghost predicate SameAnnotations(a: Db, b: Db) {
    a.messages == b.messages && a.links == b.links && a.tags == b.tags
  }

  lemma SameReads(e: Encoder, a: Db, b: Db)
    requires Faithful(e) && SameAnnotations(a, b)
    ensures forall i :: SameBags(e.read(a, i), e.read(b, i))
    ensures forall i, v :: e.vector(v, e.read(a, i)) == e.vector(v, e.read(b, i))
    ensures forall i :: Annotated(a, i) == Annotated(b, i)
  {
    forall i ensures SameBags(e.read(a, i), e.read(b, i)) {
      assert FactsOf(a, i) == FactsOf(b, i);
    }
  }

  /** Moving unfinished job i to another unfinished state at the same revision. */
  ghost predicate Moved(w: World, next: World, i: int) {
    && i in w.db.jobs
    && next.db == w.db.(jobs := next.db.jobs)
    && next.db.jobs.Keys == w.db.jobs.Keys
    && (forall x | x in w.db.jobs && x != i :: next.db.jobs[x] == w.db.jobs[x])
    && next.db.jobs[i].revision == w.db.jobs[i].revision
    && next.db.jobs[i].completed == w.db.jobs[i].completed < w.db.jobs[i].revision
    && next.db.jobs[i].status != Ready && next.db.jobs[i].status != Empty
    && JobOk(next, i)
    && next.nextToken >= w.nextToken && next.nextTxid == w.nextTxid && next.published == w.published
  }

  lemma MovedInv(e: Encoder, w: World, next: World, i: int, k: int)
    requires Faithful(e) && Inv(e, w) && Moved(w, next, i)
    requires k in next.workers && TicketOk(e, next, next.workers[k])
    requires next.workers.Keys == w.workers.Keys
    requires forall x | x in w.workers && x != k :: next.workers[x] == w.workers[x]
    ensures Inv(e, next)
  {
    SameReads(e, w.db, next.db);
    forall x | x in next.db.jobs ensures JobOk(next, x) && VectorOk(e, next.db, x) {
      assert JobOk(w, x) && VectorOk(e, w.db, x);
    }
    forall x | x in next.workers ensures TicketOk(e, next, next.workers[x]) {
      if x != k { assert TicketOk(e, w, w.workers[x]); }
    }
  }

  lemma ClaimInv(e: Encoder, w: World, k: int, image: int)
    requires Faithful(e) && Inv(e, w) && Enabled(w, Claim(k, image))
    ensures Inv(e, Next(e, w, Claim(k, image)))
  {
    var next := Next(e, w, Claim(k, image));
    assert JobOk(w, image);
    assert TicketOk(e, w, w.workers[k]);
    MovedInv(e, w, next, image, k);
  }

  lemma HeartbeatInv(e: Encoder, w: World, k: int)
    requires Faithful(e) && Inv(e, w) && Enabled(w, Heartbeat(k))
    ensures Inv(e, Next(e, w, Heartbeat(k)))
  {
    var next, t := Next(e, w, Heartbeat(k)), w.workers[k].phase.ticket;
    if next != w {
      assert JobOk(w, t.image);
      assert TicketOk(e, w, w.workers[k]);
      SameReads(e, w.db, next.db);
      MovedInv(e, w, next, t.image, k);
    }
  }

  lemma FailInv(e: Encoder, w: World, k: int)
    requires Faithful(e) && Inv(e, w) && Enabled(w, Fail(k))
    ensures Inv(e, Next(e, w, Fail(k)))
  {
    var next, t := Next(e, w, Fail(k)), w.workers[k].phase.ticket;
    assert TicketOk(e, w, w.workers[k]);
    if Current(w.db, t) {
      assert JobOk(w, t.image);
      MovedInv(e, w, next, t.image, k);
    } else {
      LocalInv(e, w, next);
    }
  }

  /** Steps of the workers and the clock that do not touch the tables. */
  lemma LocalInv(e: Encoder, w: World, next: World)
    requires Faithful(e) && Inv(e, w)
    requires next.db == w.db.(now := next.db.now)
    requires next.nextToken == w.nextToken && next.nextTxid >= w.nextTxid && next.published == w.published
    requires forall k | k in next.workers ::
      (k in w.workers && next.workers[k] == w.workers[k]) || TicketOk(e, w, next.workers[k])
    ensures Inv(e, next)
  {
    SameReads(e, w.db, next.db);
    forall x | x in next.db.jobs ensures JobOk(next, x) && VectorOk(e, next.db, x) {
      assert JobOk(w, x) && VectorOk(e, w.db, x);
    }
    forall x | x in next.workers ensures TicketOk(e, next, next.workers[x]) {
      assert TicketOk(e, w, next.workers[x]);
    }
  }

  lemma AbandonInv(e: Encoder, w: World, k: int)
    requires Faithful(e) && Inv(e, w) && Enabled(w, Abandon(k))
    ensures Inv(e, Next(e, w, Abandon(k)))
  {
    assert TicketOk(e, w, w.workers[k]);
    LocalInv(e, w, Next(e, w, Abandon(k)));
  }

  lemma SnapshotInv(e: Encoder, w: World, k: int)
    requires Faithful(e) && Inv(e, w) && Enabled(w, Snapshot(k))
    ensures Inv(e, Next(e, w, Snapshot(k)))
  {
    assert TicketOk(e, w, w.workers[k]);
    LocalInv(e, w, Next(e, w, Snapshot(k)));
  }

  lemma PublishInv(e: Encoder, w: World, k: int)
    requires Faithful(e) && Inv(e, w) && Enabled(w, Publish(k))
    ensures Inv(e, Next(e, w, Publish(k)))
  {
    var next, t := Next(e, w, Publish(k)), w.workers[k].phase.ticket;
    assert TicketOk(e, w, w.workers[k]);
    if CanPublish(w.db, t, w.workers[k].version) {
      PublishedJobs(e, w, k);
      PublishedTickets(e, w, k);
      PublishedLog(e, w, k);
    } else {
      LocalInv(e, w, next);
    }
  }

  lemma PublishedJobs(e: Encoder, w: World, k: int)
    requires Faithful(e) && Inv(e, w) && Enabled(w, Publish(k))
    requires CanPublish(w.db, w.workers[k].phase.ticket, w.workers[k].version)
    ensures var next := Next(e, w, Publish(k));
      WellFormed(next.db) && JobsOk(next) && EmbeddingsOk(next) && VectorsOk(e, next) && AnnotatedHaveJobs(next)
  {
    var next, i := Next(e, w, Publish(k)), w.workers[k].phase.ticket.image;
    PublishedRow(e, w, k);
    forall x | x in next.db.jobs ensures JobOk(next, x) && VectorOk(e, next.db, x) {
      if x != i {
        OtherJob(e, w, k, x);
        OtherVector(e, w, k, x);
      }
    }
    PublishedEmbeddings(e, w, k);
    PublishedAnnotations(e, w, k);
  }

  lemma OtherJob(e: Encoder, w: World, k: int, x: int)
    requires JobsOk(w) && Enabled(w, Publish(k)) && CanPublish(w.db, w.workers[k].phase.ticket, w.workers[k].version)
    requires x in w.db.jobs && x != w.workers[k].phase.ticket.image
    ensures JobOk(Next(e, w, Publish(k)), x)
  {
    assert JobOk(w, x);
  }

  lemma OtherVector(e: Encoder, w: World, k: int, x: int)
    requires Faithful(e) && VectorsOk(e, w) && Enabled(w, Publish(k))
    requires CanPublish(w.db, w.workers[k].phase.ticket, w.workers[k].version)
    requires x in w.db.jobs && x != w.workers[k].phase.ticket.image
    ensures VectorOk(e, Next(e, w, Publish(k)).db, x)
  {
    SameReads(e, w.db, Next(e, w, Publish(k)).db);
    assert VectorOk(e, w.db, x);
  }

  lemma PublishedAnnotations(e: Encoder, w: World, k: int)
    requires Faithful(e) && WellFormed(w.db) && AnnotatedHaveJobs(w) && Enabled(w, Publish(k))
    ensures var next := Next(e, w, Publish(k)); WellFormed(next.db) && AnnotatedHaveJobs(next)
  {
    SameReads(e, w.db, Next(e, w, Publish(k)).db);
  }

  lemma PublishedEmbeddings(e: Encoder, w: World, k: int)
    requires Faithful(e) && Inv(e, w) && Enabled(w, Publish(k))
    requires CanPublish(w.db, w.workers[k].phase.ticket, w.workers[k].version)
    ensures EmbeddingsOk(Next(e, w, Publish(k)))
  {
    var next, t := Next(e, w, Publish(k)), w.workers[k].phase.ticket;
    assert TicketOk(e, w, w.workers[k]) && JobOk(w, t.image);
    forall i | i in next.db.embeddings ensures i in next.db.jobs && i in next.db.terms && next.db.terms[i] != map[]
        && next.db.embeddings[i].builtRevision <= next.db.jobs[i].completed
        && next.db.embeddings[i].version.tagWeight > 0.0 {
      if i != t.image { assert i in w.db.embeddings && next.db.embeddings[i] == w.db.embeddings[i]; }
    }
  }

  lemma PublishedRow(e: Encoder, w: World, k: int)
    requires Faithful(e) && Inv(e, w) && Enabled(w, Publish(k))
    requires CanPublish(w.db, w.workers[k].phase.ticket, w.workers[k].version)
    ensures var next, i := Next(e, w, Publish(k)), w.workers[k].phase.ticket.image;
      JobOk(next, i) && VectorOk(e, next.db, i)
  {
    var next, worker := Next(e, w, Publish(k)), w.workers[k];
    var i := worker.phase.ticket.image;
    SameReads(e, w.db, next.db);
    assert TicketOk(e, w, worker) && JobOk(w, i);
    var vector := e.vector(worker.version, worker.phase.source);
    assert vector == e.vector(worker.version, e.read(w.db, i));
    assert e.vector(Version(1.0), e.read(w.db, i)) == map[] <==> vector == map[];
  }

  lemma PublishedTickets(e: Encoder, w: World, k: int)
    requires Faithful(e) && Inv(e, w) && Enabled(w, Publish(k))
    requires CanPublish(w.db, w.workers[k].phase.ticket, w.workers[k].version)
    ensures TicketsOk(e, Next(e, w, Publish(k)))
  {
    var next := Next(e, w, Publish(k));
    SameReads(e, w.db, next.db);
    forall x | x in next.workers ensures TicketOk(e, next, next.workers[x]) {
      assert TicketOk(e, w, w.workers[x]);
    }
  }

  lemma PublicationIsNew(e: Encoder, w: World, t: Ticket, version: Version)
    requires JobsOk(w) && LogOk(w) && CanPublish(w.db, t, version)
    ensures (t.image, t.revision) !in w.published && w.db.jobs[t.image].completed < t.revision
  {
    assert JobOk(w, t.image);
  }

  lemma LogGrows(w: World, next: World, image: int, revision: nat)
    requires LogOk(w) && (image, revision) !in w.published && next.published == w.published + [(image, revision)]
    requires next.db.images == w.db.images && next.db.nextImage == w.db.nextImage && next.db.jobs.Keys == w.db.jobs.Keys
    requires Enrolled(w.db, image) && image in w.db.jobs && next.db.jobs[image].completed >= revision
    requires forall i | i in w.db.jobs :: w.db.jobs[i].completed <= next.db.jobs[i].completed
    ensures LogOk(next)
  {
  }

  lemma PublishedLog(e: Encoder, w: World, k: int)
    requires Faithful(e) && Inv(e, w) && Enabled(w, Publish(k))
    requires CanPublish(w.db, w.workers[k].phase.ticket, w.workers[k].version)
    ensures LogOk(Next(e, w, Publish(k)))
  {
    var t := w.workers[k].phase.ticket;
    PublicationIsNew(e, w, t, w.workers[k].version);
    assert TicketOk(e, w, w.workers[k]);
    LogGrows(w, Next(e, w, Publish(k)), t.image, t.revision);
  }

  // ----- Reconfiguration -----

  lemma ConfigureInv(e: Encoder, w: World, k: int, version: Version)
    requires Faithful(e) && Inv(e, w) && Enabled(w, Configure(k, version))
    ensures Inv(e, Next(e, w, Configure(k, version)))
  {
    var next := Next(e, w, Configure(k, version));
    SameReads(e, w.db, next.db);
    forall x | x in next.db.jobs ensures JobOk(next, x) && VectorOk(e, next.db, x) {
      if x in w.db.jobs { assert JobOk(w, x) && VectorOk(e, w.db, x); }
    }
    forall x | x in next.workers ensures TicketOk(e, next, next.workers[x]) {
      if x != k { assert TicketOk(e, w, w.workers[x]); }
    }
  }

  // ----- Every run -----

  lemma StepInv(e: Encoder, w: World, s: Step)
    requires Faithful(e) && Inv(e, w)
    ensures Inv(e, Next(e, w, s))
  {
    if Enabled(w, s) {
      match s
      case Annotate(ws) => AnnotateInv(e, w, ws);
      case Rollback(_) => LocalInv(e, w, Next(e, w, s));
      case Configure(k, version) => ConfigureInv(e, w, k, version);
      case Claim(k, image) => ClaimInv(e, w, k, image);
      case Snapshot(k) => SnapshotInv(e, w, k);
      case Heartbeat(k) => HeartbeatInv(e, w, k);
      case Publish(k) => PublishInv(e, w, k);
      case Fail(k) => FailInv(e, w, k);
      case Abandon(k) => AbandonInv(e, w, k);
      case Crash(k) => LocalInv(e, w, Next(e, w, s));
      case Tick(_) => LocalInv(e, w, Next(e, w, s));
    }
  }

  lemma {:induction false} RunInv(e: Encoder, w: World, steps: seq<Step>)
    requires Faithful(e) && Inv(e, w)
    ensures Inv(e, Run(e, w, steps))
    decreases |steps|
  {
    if steps != [] {
      StepInv(e, w, steps[0]);
      RunInv(e, Next(e, w, steps[0]), steps[1..]);
    }
  }

  /** Whatever happened before, a vector the API accepts is the vector of the annotations as
      they are now: for any faithful encoder, and so for the lexical one. */
  lemma FreshnessOf(e: Encoder, w0: World, steps: seq<Step>, image: int)
    requires Faithful(e) && Initial(w0)
    ensures var db := Run(e, w0, steps).db;
      image in db.jobs && image in db.embeddings && db.jobs[image].status == Ready
      && db.embeddings[image].builtRevision == db.jobs[image].revision
      && db.setting == Some(db.embeddings[image].version) ==>
      image in db.terms && db.terms[image] == e.vector(db.setting.value, e.read(db, image))
  {
    InitialInv(e, w0);
    RunInv(e, w0, steps);
    var w := Run(e, w0, steps);
    if image in w.db.jobs { assert VectorOk(e, w.db, image); }
  }

  lemma Freshness(lex: Lexicon, m: Calculus, w0: World, steps: seq<Step>, image: int)
    requires Lawful(m) && Initial(w0)
    ensures var db := Run(LexicalEncoder(lex, m), w0, steps).db;
      image in db.jobs && image in db.embeddings && db.jobs[image].status == Ready
      && db.embeddings[image].builtRevision == db.jobs[image].revision
      && db.setting == Some(db.embeddings[image].version) ==>
      image in db.terms && db.terms[image] == VectorOf(lex, m, db.setting.value.tagWeight, SourceOf(db, image))
  {
    LexicalFaithful(lex, m);
    FreshnessOf(LexicalEncoder(lex, m), w0, steps, image);
  }

  /** The job table after any run: leases exist exactly while running, a job is complete exactly
      when ready or empty, and ready and empty say which vector is stored. */
  lemma JobTable(lex: Lexicon, m: Calculus, w0: World, steps: seq<Step>, image: int)
    requires Lawful(m) && Initial(w0)
    ensures var db := Run(LexicalEncoder(lex, m), w0, steps).db;
      && (Annotated(db, image) ==> image in db.jobs)
      && (image in db.jobs ==>
            var j := db.jobs[image];
            && (j.status == Running <==> j.token.Some?) && (j.status == Running <==> j.leaseUntil.Some?)
            && j.completed <= j.revision && (j.completed == j.revision <==> j.status == Ready || j.status == Empty)
            && (j.status == Ready ==> image in db.embeddings && db.embeddings[image].builtRevision == j.revision
                                      && db.setting == Some(db.embeddings[image].version))
            && (j.status == Empty ==> image !in db.embeddings && image !in db.terms))
  {
    var e := LexicalEncoder(lex, m);
    LexicalFaithful(lex, m);
    InitialInv(e, w0);
    RunInv(e, w0, steps);
    var w := Run(e, w0, steps);
    if image in w.db.jobs { assert JobOk(w, image); }
  }

  /** An image without a job, or whose job is empty, has nothing to index at any weight. */
  lemma NothingToIndex(lex: Lexicon, m: Calculus, w0: World, steps: seq<Step>, image: int, tagWeight: real)
    requires Lawful(m) && Initial(w0) && tagWeight > 0.0
    ensures var db := Run(LexicalEncoder(lex, m), w0, steps).db;
      image !in db.jobs || db.jobs[image].status == Empty ==> VectorOf(lex, m, tagWeight, SourceOf(db, image)) == map[]
  {
    var e := LexicalEncoder(lex, m);
    LexicalFaithful(lex, m);
    InitialInv(e, w0);
    RunInv(e, w0, steps);
    var w := Run(e, w0, steps);
    if image in w.db.jobs {
      assert VectorOk(e, w.db, image);
      EmptinessIgnoresWeight(lex, m, tagWeight, 1.0, SourceOf(w.db, image));
    } else {
      UnannotatedIsEmpty(lex, m, tagWeight, w.db, image);
    }
  }

  lemma UnannotatedIsEmpty(lex: Lexicon, m: Calculus, tagWeight: real, db: Db, image: int)
    requires Lawful(m) && tagWeight > 0.0 && !Annotated(db, image)
    ensures VectorOf(lex, m, tagWeight, SourceOf(db, image)) == map[]
  {
    ByNameTotal();
    ByDateTotal();
    assert TagRows(db, image) == {} && CommentRows(db, image) == {};
    assert SourceOf(db, image) == Source([], []);
    assert SourceFrequencies(lex, tagWeight, Source([], [])) == map[];
    NormalizedGeometry(m, map[]);
  }

  // ----- Fencing -----

  /** The ticket can never own its row again. */
  ghost predicate Fenced(w: World, t: Ticket) {
    && t.token < w.nextToken && Enrolled(w.db, t.image)
    && (t.image in w.db.jobs ==> t.revision <= w.db.jobs[t.image].revision && !Current(w.db, t))
  }

  /** A worker whose token was replaced, or whose revision was superseded, is fenced. */
  lemma LostIsFenced(e: Encoder, w: World, k: int)
    requires Faithful(e) && Inv(e, w) && k in w.workers && !w.workers[k].phase.Idle?
    requires !Current(w.db, w.workers[k].phase.ticket)
    ensures Fenced(w, w.workers[k].phase.ticket)
  {
    assert TicketOk(e, w, w.workers[k]);
  }

  lemma FencedAnnotate(e: Encoder, w: World, ws: seq<Write>, t: Ticket)
    requires Faithful(e) && Inv(e, w) && Fenced(w, t)
    ensures Fenced(Next(e, w, Annotate(ws)), t)
  {
    if ApplyAll(w.db, w.nextTxid, ws).Some? {
      TransactionFrame(w.db, w.nextTxid, ws);
      if t.image in Next(e, w, Annotate(ws)).db.images { ImageFollowed(e, w, ws, t.image); }
    }
  }

  lemma FencedConfigure(e: Encoder, w: World, k: int, version: Version, t: Ticket)
    requires Fenced(w, t) && Enabled(w, Configure(k, version))
    ensures Fenced(Next(e, w, Configure(k, version)), t)
  {
  }

  lemma FencedClaim(e: Encoder, w: World, k: int, image: int, t: Ticket)
    requires Fenced(w, t) && Enabled(w, Claim(k, image))
    ensures Fenced(Next(e, w, Claim(k, image)), t)
  {
  }

  lemma FencedHeartbeat(e: Encoder, w: World, k: int, t: Ticket)
    requires Fenced(w, t) && Enabled(w, Heartbeat(k))
    ensures Fenced(Next(e, w, Heartbeat(k)), t)
  {
  }

  lemma FencedPublish(e: Encoder, w: World, k: int, t: Ticket)
    requires Fenced(w, t) && Enabled(w, Publish(k))
    ensures Fenced(Next(e, w, Publish(k)), t)
  {
  }

  lemma FencedFail(e: Encoder, w: World, k: int, t: Ticket)
    requires Fenced(w, t) && Enabled(w, Fail(k))
    ensures Fenced(Next(e, w, Fail(k)), t)
  {
  }

  /** A step that leaves the queue's tables alone. */
  lemma FencedLocal(w: World, next: World, t: Ticket)
    requires Fenced(w, t) && next.db == w.db.(now := next.db.now) && next.nextToken == w.nextToken
    ensures Fenced(next, t)
  {
  }

  lemma FencedStep(e: Encoder, w: World, s: Step, t: Ticket)
    requires Faithful(e) && Inv(e, w) && Fenced(w, t)
    ensures Fenced(Next(e, w, s), t)
  {
    if Enabled(w, s) {
      match s
      case Annotate(ws) => FencedAnnotate(e, w, ws, t);
      case Configure(k, version) => FencedConfigure(e, w, k, version, t);
      case Claim(k, image) => FencedClaim(e, w, k, image, t);
      case Heartbeat(k) => FencedHeartbeat(e, w, k, t);
      case Publish(k) => FencedPublish(e, w, k, t);
      case Fail(k) => FencedFail(e, w, k, t);
      case _ => FencedLocal(w, Next(e, w, s), t);
    }
  }

  /** Once fenced, forever fenced: in every later state its publish, heartbeat and fail change nothing. */
  lemma {:induction false} FencedForever(e: Encoder, w: World, steps: seq<Step>, t: Ticket, version: Version,
                                         vector: map<string, real>)
    requires Faithful(e) && Inv(e, w) && Fenced(w, t)
    ensures var db := Run(e, w, steps).db;
      Published(db, t, version, vector) == db && Renewed(db, t) == db && FailedBy(db, t) == db
    decreases |steps|
  {
    if steps != [] {
      StepInv(e, w, steps[0]);
      FencedStep(e, w, steps[0], t);
      FencedForever(e, Next(e, w, steps[0]), steps[1..], t, version, vector);
    }
  }

  /** No revision of an image is ever published twice. */
  lemma AtMostOnePublication(e: Encoder, w0: World, steps: seq<Step>)
    requires Faithful(e) && Initial(w0)
    ensures Ranking.Distinct(Run(e, w0, steps).published)
  {
    InitialInv(e, w0);
    RunInv(e, w0, steps);
  }

  /** Any positive tag weight can be configured, and a worker whose job was taken or changed reads nothing. */
  lemma ConfigureAndSnapshot(e: Encoder, w: World, k: int, version: Version)
    ensures version.tagWeight > 0.0 ==>
      && Next(e, w, Configure(k, version)).db == Configured(w.db, version, w.nextTxid)
      && Next(e, w, Configure(k, version)).workers == w.workers[k := Worker(version, Idle)]
    ensures k in w.workers && w.workers[k].phase.Holding? ==>
      var t := w.workers[k].phase.ticket;
      Next(e, w, Snapshot(k)) == if Current(w.db, t)
        then w.(workers := w.workers[k := Worker(w.workers[k].version, Loaded(t, e.read(w.db, t.image)))]) else w
  {
  }

  // ----- Priorities -----

  /** The step commits an annotation transaction that touches the image and leaves it in place. */
  ghost predicate Marks(w: World, s: Step, i: int) {
    && s.Annotate? && ApplyAll(w.db, w.nextTxid, s.ws).Some? && Touched(w.db, w.nextTxid, s.ws, i)
    && i in ApplyAll(w.db, w.nextTxid, s.ws).value.images
  }

  ghost predicate EverMarked(e: Encoder, w: World, steps: seq<Step>, i: int)
    decreases |steps|
  {
    steps != [] && (Marks(w, steps[0], i) || EverMarked(e, Next(e, w, steps[0]), steps[1..], i))
  }

  lemma AnnotatePriority(e: Encoder, w: World, ws: seq<Write>, i: int)
    requires Faithful(e) && Inv(e, w) && i in Next(e, w, Annotate(ws)).db.jobs
    ensures var j := Next(e, w, Annotate(ws)).db.jobs[i];
      if Marks(w, Annotate(ws), i) then j.priority == 1 else i in w.db.jobs && j.priority == w.db.jobs[i].priority
  {
    if ApplyAll(w.db, w.nextTxid, ws).Some? {
      TransactionFrame(w.db, w.nextTxid, ws);
      ApplyAllTracks(w.db, w.nextTxid, ws, i);
      assert i in w.db.jobs ==> JobOk(w, i);
    }
  }

  /** The queue's own transactions keep the jobs there are, with their priorities. */
  lemma QueueKeeps(e: Encoder, w: World, s: Step)
    requires !s.Annotate? && !s.Configure?
    ensures var next := Next(e, w, s).db;
      && next.jobs.Keys == w.db.jobs.Keys && next.images == w.db.images && next.nextImage == w.db.nextImage
      && forall i | i in w.db.jobs :: next.jobs[i].priority == w.db.jobs[i].priority
  {
    if s.Publish? && Enabled(w, s) {
      var t, version := w.workers[s.worker].phase.ticket, w.workers[s.worker].version;
      PublishKeeps(w.db, t, version, e.vector(version, w.workers[s.worker].phase.source));
    }
  }

  lemma StepPriority(e: Encoder, w: World, s: Step, i: int)
    requires Faithful(e) && Inv(e, w) && i in Next(e, w, s).db.jobs
    ensures Next(e, w, s).db.jobs[i].priority
      == if Marks(w, s, i) then 1 else if i in w.db.jobs then w.db.jobs[i].priority else 0
  {
    match s
    case Annotate(ws) => AnnotatePriority(e, w, ws, i);
    case Configure(k, version) => ConfiguredIs(w.db, version, w.nextTxid);
    case _ => QueueKeeps(e, w, s);
  }

  lemma StepJobs(e: Encoder, w: World, s: Step, i: int)
    requires Faithful(e) && Inv(e, w)
    ensures var next := Next(e, w, s).db;
      && next.nextImage >= w.db.nextImage
      && (i in w.db.jobs && i !in next.jobs ==> i !in next.images && i < next.nextImage)
      && (i !in w.db.images && i < w.db.nextImage ==> i !in next.images)
  {
    match s
    case Annotate(ws) =>
      if ApplyAll(w.db, w.nextTxid, ws).Some? {
        TransactionFrame(w.db, w.nextTxid, ws);
        if i in Next(e, w, s).db.images { ImageFollowed(e, w, ws, i); }
      }
    case Configure(k, version) => ConfiguredIs(w.db, version, w.nextTxid);
    case _ => QueueKeeps(e, w, s);
  }

  lemma {:induction false} GoneStays(e: Encoder, w: World, steps: seq<Step>, i: int)
    requires Faithful(e) && Inv(e, w) && i !in w.db.images && i < w.db.nextImage
    ensures i !in Run(e, w, steps).db.jobs
    decreases |steps|
  {
    if steps != [] {
      StepInv(e, w, steps[0]);
      StepJobs(e, w, steps[0], i);
      GoneStays(e, Next(e, w, steps[0]), steps[1..], i);
    }
  }

  lemma {:induction false} PriorityFrom(e: Encoder, w: World, steps: seq<Step>, i: int)
    requires Faithful(e) && Inv(e, w) && i in Run(e, w, steps).db.jobs
    ensures Run(e, w, steps).db.jobs[i].priority
      == if EverMarked(e, w, steps, i) then 1 else if i in w.db.jobs then w.db.jobs[i].priority else 0
    decreases |steps|
  {
    if steps != [] {
      var mid := Next(e, w, steps[0]);
      StepInv(e, w, steps[0]);
      StepJobs(e, w, steps[0], i);
      PriorityFrom(e, mid, steps[1..], i);
      if i in mid.db.jobs {
        StepPriority(e, w, steps[0], i);
      } else {
        if i in w.db.jobs { GoneStays(e, mid, steps[1..], i); }
        if Marks(w, steps[0], i) { MarkedPresent(e, w, steps[0], i); }
      }
    }
  }

  lemma MarkedPresent(e: Encoder, w: World, s: Step, i: int)
    requires Faithful(e) && Inv(e, w) && Marks(w, s, i)
    ensures i in Next(e, w, s).db.jobs
  {
    ApplyAllTracks(w.db, w.nextTxid, s.ws, i);
  }

  /** In every reachable state a job has priority 1 if some annotation write marked its image, and 0 if it
      was only ever backfilled; so by the queue's order changed images are claimed before backfilled ones. */
  lemma PriorityInRun(lex: Lexicon, m: Calculus, w0: World, steps: seq<Step>, a: int, b: int)
    requires Lawful(m) && Initial(w0)
    ensures var e := LexicalEncoder(lex, m);
      var db := Run(e, w0, steps).db;
      && (a in db.jobs ==> db.jobs[a].priority == if EverMarked(e, w0, steps, a) then 1 else 0)
      && (a in db.jobs && b in db.jobs && EverMarked(e, w0, steps, a) && !EverMarked(e, w0, steps, b) ==>
            ClaimsBefore(db, a, b) && !ClaimsBefore(db, b, a))
  {
    var e := LexicalEncoder(lex, m);
    LexicalFaithful(lex, m);
    InitialInv(e, w0);
    if a in Run(e, w0, steps).db.jobs { PriorityFrom(e, w0, steps, a); }
    if b in Run(e, w0, steps).db.jobs { PriorityFrom(e, w0, steps, b); }
  }
}
