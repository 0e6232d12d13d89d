/** Any number of workers over an unending schedule: once annotations and settings stay put and only
    finitely many attempts fail, the queue drains. */
module EmbeddingLiveness {
  import opened Basics
  import opened Tables
  import opened EmbeddingQueue
  import opened EmbeddingProtocol
  import opened EmbeddingWorker
  import opened EmbeddingStore
  import opened Lexical

  /** Which step is taken at each moment; a step that is not enabled does nothing. */
  type Schedule = nat -> Step

  ghost function At(e: Encoder, w0: World, steps: Schedule, n: nat): World {
    if n == 0 then w0 else Next(e, At(e, w0, steps, n - 1), steps(n - 1))
  }

  /** The states of an unending run, one for each moment. */
  type History = nat -> World

  ghost predicate FollowsAt(e: Encoder, run: History, steps: Schedule, n: nat) {
    run(n + 1) == Next(e, run(n), steps(n))
  }

  ghost predicate Follows(e: Encoder, run: History, steps: Schedule) {
    forall n: nat :: FollowsAt(e, run, steps, n)
  }

  ghost predicate JobsAlwaysOk(run: History) {
    forall n: nat :: JobsOk(run(n))
  }

  // ----- Assumptions on the schedule -----

  /** A step that ends an attempt without a publication: a reported failure, a lost worker, a snapshot
      or a publish whose lease is no longer held. */
  ghost predicate Fails(w: World, s: Step) {
    match s
    case Fail(_) => true
    case Abandon(_) => true
    case Crash(_) => true
    case Snapshot(k) => Busy(w, k) && w.workers[k].phase.Holding? && !Current(w.db, w.workers[k].phase.ticket)
    case Publish(k) => Enabled(w, s) && !CanPublish(w.db, w.workers[k].phase.ticket, w.workers[k].version)
    case _ => false
  }

  ghost predicate Busy(w: World, k: int) {
    k in w.workers && !w.workers[k].phase.Idle?
  }

  /** Neither an annotation write, nor a reconfiguration, nor a failing attempt. */
  ghost predicate QuietStep(w: World, s: Step) {
    !s.Annotate? && !s.Configure? && !Fails(w, s)
  }

  /** From this moment on every step is quiet, and somebody is there to work. */
  ghost predicate Settled(run: History, steps: Schedule, from: nat) {
    && (forall i: nat | from <= i :: QuietStep(run(i), steps(i)))
    && run(from).workers.Keys != {}
  }

  /** If some job can be claimed at this moment, one is. */
  ghost predicate Polled(w: World, s: Step) {
    (exists k, image :: Enabled(w, Claim(k, image))) ==> s.Claim? && Enabled(w, s)
  }

  ghost predicate SteppedAfter(steps: Schedule, i: nat, s: Step) {
    exists j: nat :: i <= j && steps(j) == s
  }

  ghost predicate PolledAfter(run: History, steps: Schedule, i: nat) {
    exists j: nat :: i <= j && Polled(run(j), steps(j))
  }

  ghost predicate LaterThan(run: History, i: nat, time: int) {
    exists j: nat :: i <= j && run(j).db.now >= time
  }

  /** Every worker is stepped again and again, in any order; the queue is polled again and again; time
      goes on. */
  ghost predicate Fair(run: History, steps: Schedule) {
    && (forall i: nat, k: int | k in run(i).workers ::
          SteppedAfter(steps, i, Snapshot(k)) && SteppedAfter(steps, i, Publish(k)))
    && (forall i: nat :: PolledAfter(run, steps, i))
    && (forall i: nat, time: int :: LaterThan(run, i, time))
  }

  // ----- One quiet step -----

  lemma UnfinishedOnlyShrinks(e: Encoder, w: World, s: Step)
    requires JobsOk(w) && QuietStep(w, s)
    ensures Incomplete(Next(e, w, s).db) <= Incomplete(w.db)
    ensures SameAnnotations(w.db, Next(e, w, s).db) && Next(e, w, s).db.setting == w.db.setting
    ensures Next(e, w, s).db.now >= w.db.now && Next(e, w, s).workers.Keys == w.workers.Keys
  {
    if Enabled(w, s) {
      match s
      case Claim(k, image) =>
      case Heartbeat(k) =>
      case Publish(k) =>
      case _ =>
    }
  }

  /** A publish that is due completes its job. */
  lemma PublishFinishes(e: Encoder, w: World, k: int)
    requires JobsOk(w) && Enabled(w, Publish(k)) && !Fails(w, Publish(k))
    ensures Incomplete(Next(e, w, Publish(k)).db) < Incomplete(w.db)
  {
    var t := w.workers[k].phase.ticket;
    assert JobOk(w, t.image);
    assert t.image in Incomplete(w.db) && t.image !in Incomplete(Next(e, w, Publish(k)).db);
  }

  lemma SnapshotLoads(e: Encoder, w: World, k: int)
    requires Busy(w, k) && w.workers[k].phase.Holding? && QuietStep(w, Snapshot(k))
    ensures Busy(Next(e, w, Snapshot(k)), k) && Next(e, w, Snapshot(k)).workers[k].phase.Loaded?
  {
  }

  /** The step a busy worker waits for. */
  function Due(w: World, k: int): Step
    requires k in w.workers
  {
    if w.workers[k].phase.Loaded? then Publish(k) else Snapshot(k)
  }

  /** Every other step leaves a busy worker where it is. */
  lemma StaysPut(e: Encoder, w: World, s: Step, k: int)
    requires Busy(w, k) && QuietStep(w, s) && s != Due(w, k)
    ensures k in Next(e, w, s).workers && Next(e, w, s).workers[k] == w.workers[k]
  {
  }

  /** With nobody busy before or after, a quiet step only moves the clock. */
  lemma IdleStep(e: Encoder, w: World, s: Step)
    requires QuietStep(w, s) && (forall k :: !Busy(w, k)) && (forall k :: !Busy(Next(e, w, s), k))
    ensures Next(e, w, s).db == w.db.(now := Next(e, w, s).db.now) && Next(e, w, s).workers == w.workers
  {
    assert s.Heartbeat? || s.Publish? || s.Snapshot? ==> !Busy(w, s.worker);
    assert s.Claim? ==> !Busy(Next(e, w, s), s.worker);
  }

  // ----- Along the schedule -----

  /** What a settled run keeps from one moment to a later one. */
  ghost predicate Onward(a: World, b: World) {
    && Incomplete(b.db) <= Incomplete(a.db) && SameAnnotations(a.db, b.db) && b.db.setting == a.db.setting
    && b.db.now >= a.db.now && b.workers.Keys == a.workers.Keys
  }

  lemma {:induction false} OnwardFrom(e: Encoder, run: History, steps: Schedule, from: nat, i: nat, j: nat)
    requires Follows(e, run, steps) && JobsAlwaysOk(run) && Settled(run, steps, from) && from <= i <= j
    ensures Onward(run(i), run(j))
    decreases j - i
  {
    if i < j {
      OnwardFrom(e, run, steps, from, i, j - 1);
      assert QuietStep(run(j - 1), steps(j - 1));
      assert FollowsAt(e, run, steps, j - 1);
      UnfinishedOnlyShrinks(e, run(j - 1), steps(j - 1));
    }
  }

  /** The first moment from i on at which step s is taken. */
  lemma {:induction false} Earliest(steps: Schedule, i: nat, s: Step, found: nat) returns (j: nat)
    requires i <= found && steps(found) == s
    ensures i <= j && steps(j) == s && forall x: nat | i <= x < j :: steps(x) != s
    decreases found - i
  {
    if steps(i) == s {
      j := i;
    } else {
      j := Earliest(steps, i + 1, s, found);
    }
  }

  lemma {:induction false} Waits(e: Encoder, run: History, steps: Schedule, from: nat, i: nat, j: nat, k: int)
    requires Follows(e, run, steps) && Settled(run, steps, from) && from <= i <= j && Busy(run(i), k)
    requires forall x: nat | i <= x < j :: steps(x) != Due(run(i), k)
    ensures k in run(j).workers && run(j).workers[k] == run(i).workers[k]
    decreases j - i
  {
    if i < j {
      Waits(e, run, steps, from, i, j - 1, k);
      assert QuietStep(run(j - 1), steps(j - 1));
      assert FollowsAt(e, run, steps, j - 1);
      StaysPut(e, run(j - 1), steps(j - 1), k);
    }
  }

  /** A busy worker comes to the moment of the step it waits for. */
  lemma ComesDue(e: Encoder, run: History, steps: Schedule, from: nat, i: nat, k: int) returns (j: nat)
    requires Follows(e, run, steps) && Fair(run, steps) && Settled(run, steps, from) && from <= i && Busy(run(i), k)
    ensures i <= j && steps(j) == Due(run(i), k) && QuietStep(run(j), steps(j))
    ensures k in run(j).workers && run(j).workers[k] == run(i).workers[k]
  {
    var s := Due(run(i), k);
    assert SteppedAfter(steps, i, Snapshot(k)) && SteppedAfter(steps, i, Publish(k));
    var found: nat :| i <= found && steps(found) == s;
    j := Earliest(steps, i, s, found);
    Waits(e, run, steps, from, i, j, k);
  }

  lemma LoadedPublishes(e: Encoder, run: History, steps: Schedule, from: nat, i: nat, k: int) returns (j: nat)
    requires Follows(e, run, steps) && JobsAlwaysOk(run) && Fair(run, steps) && Settled(run, steps, from) && from <= i
    requires Busy(run(i), k) && run(i).workers[k].phase.Loaded?
    ensures i <= j && Incomplete(run(j).db) < Incomplete(run(i).db)
  {
    var p := ComesDue(e, run, steps, from, i, k);
    OnwardFrom(e, run, steps, from, i, p);
    assert FollowsAt(e, run, steps, p);
    PublishFinishes(e, run(p), k);
    j := p + 1;
  }

  /** A busy worker's job gets done. */
  lemma BusyPublishes(e: Encoder, run: History, steps: Schedule, from: nat, i: nat, k: int) returns (j: nat)
    requires Follows(e, run, steps) && JobsAlwaysOk(run) && Fair(run, steps) && Settled(run, steps, from) && from <= i
    requires Busy(run(i), k)
    ensures i <= j && Incomplete(run(j).db) < Incomplete(run(i).db)
  {
    if run(i).workers[k].phase.Loaded? {
      j := LoadedPublishes(e, run, steps, from, i, k);
    } else {
      var p := ComesDue(e, run, steps, from, i, k);
      assert FollowsAt(e, run, steps, p);
      SnapshotLoads(e, run(p), k);
      OnwardFrom(e, run, steps, from, i, p + 1);
      j := LoadedPublishes(e, run, steps, from, p + 1, k);
    }
  }

  lemma {:induction false} IdleUntil(e: Encoder, run: History, steps: Schedule, from: nat, i: nat, j: nat)
    requires Follows(e, run, steps) && Settled(run, steps, from) && from <= i <= j
    requires forall x: nat, k: int | i <= x <= j :: !Busy(run(x), k)
    ensures run(j).db == run(i).db.(now := run(j).db.now) && run(j).workers == run(i).workers
    decreases j - i
  {
    if i < j {
      IdleUntil(e, run, steps, from, i, j - 1);
      assert QuietStep(run(j - 1), steps(j - 1));
      assert FollowsAt(e, run, steps, j - 1);
      IdleStep(e, run(j - 1), steps(j - 1));
    }
  }

  /** A due job is claimed when the queue is polled and a worker is idle. */
  lemma Taken(e: Encoder, w: World, s: Step, x: int) returns (k: int)
    requires JobsOk(w) && Polled(w, s) && x in Incomplete(w.db) && w.db.now >= EmbeddingWorker.Due(w.db.jobs[x])
    requires w.workers.Keys != {} && forall y :: !Busy(w, y)
    ensures Busy(Next(e, w, s), k)
  {
    if !Claimable(w.db.jobs[x], w.db.now) { UnclaimableIsNotDue(w, x); }
    HasElement(w.workers.Keys);
    var y :| y in w.workers.Keys;
    assert !Busy(w, y);
    assert Enabled(w, Claim(y, x));
    k := s.worker;
  }

  /** A moment at which the queue is polled and the given job is due, if nothing happens to it. */
  lemma PollWhenDue(e: Encoder, run: History, steps: Schedule, from: nat, i: nat, time: int) returns (p: nat)
    requires Follows(e, run, steps) && JobsAlwaysOk(run) && Fair(run, steps) && Settled(run, steps, from) && from <= i
    ensures i <= p && Polled(run(p), steps(p)) && run(p).db.now >= time && run(p).workers.Keys != {}
  {
    assert LaterThan(run, i, time);
    var late: nat :| i <= late && run(late).db.now >= time;
    assert PolledAfter(run, steps, late);
    p :| late <= p && Polled(run(p), steps(p));
    OnwardFrom(e, run, steps, from, late, p);
    OnwardFrom(e, run, steps, from, from, p);
  }

  /** While a job is unfinished, sooner or later somebody is at work. */
  lemma SomebodyWorks(e: Encoder, run: History, steps: Schedule, from: nat, i: nat) returns (j: nat, k: int)
    requires Follows(e, run, steps) && JobsAlwaysOk(run) && Fair(run, steps) && Settled(run, steps, from) && from <= i
    requires Incomplete(run(i).db) != {}
    ensures i <= j && Busy(run(j), k)
  {
    HasElement(Incomplete(run(i).db));
    var x :| x in Incomplete(run(i).db);
    var p := PollWhenDue(e, run, steps, from, i, EmbeddingWorker.Due(run(i).db.jobs[x]));
    if m: nat, y: int :| i <= m <= p && Busy(run(m), y) {
      j, k := m, y;
    } else {
      IdleUntil(e, run, steps, from, i, p);
      assert FollowsAt(e, run, steps, p);
      k := Taken(e, run(p), steps(p), x);
      j := p + 1;
    }
  }

  lemma {:induction false} Drains(e: Encoder, run: History, steps: Schedule, from: nat, i: nat) returns (n: nat)
    requires Follows(e, run, steps) && JobsAlwaysOk(run) && Fair(run, steps) && Settled(run, steps, from) && from <= i
    ensures i <= n && Incomplete(run(n).db) == {}
    decreases Incomplete(run(i).db)
  {
    if Incomplete(run(i).db) == {} {
      n := i;
    } else {
      var j, k := SomebodyWorks(e, run, steps, from, i);
      OnwardFrom(e, run, steps, from, i, j);
      var done := BusyPublishes(e, run, steps, from, j, k);
      n := Drains(e, run, steps, from, done);
    }
  }

  // ----- The queue drains -----

  lemma {:induction false} InvAt(e: Encoder, w0: World, steps: Schedule, n: nat)
    requires Faithful(e) && Inv(e, w0)
    ensures Inv(e, At(e, w0, steps, n))
  {
    if n > 0 {
      InvAt(e, w0, steps, n - 1);
      StepInv(e, At(e, w0, steps, n - 1), steps(n - 1));
    }
  }

  ghost function RunOf(e: Encoder, w0: World, steps: Schedule): History {
    (n: nat) => At(e, w0, steps, n)
  }

  lemma RunFollows(e: Encoder, w0: World, steps: Schedule)
    requires Faithful(e) && Initial(w0)
    ensures Follows(e, RunOf(e, w0, steps), steps) && JobsAlwaysOk(RunOf(e, w0, steps))
    ensures forall n: nat :: Inv(e, RunOf(e, w0, steps)(n))
  {
    InitialInv(e, w0);
    forall n: nat ensures Inv(e, At(e, w0, steps, n)) { InvAt(e, w0, steps, n); }
    forall n: nat ensures FollowsAt(e, RunOf(e, w0, steps), steps, n) { }
  }

  /** For any number of workers, under any schedule that keeps stepping each of them, keeps polling and
      lets time pass: once annotations and settings stay put and attempts stop failing, there is a
      moment from which on every annotated image has the right vector, or is empty with nothing to
      index. */
  lemma QueueDrains(lex: Lexicon, m: Calculus, w0: World, steps: Schedule, from: nat, version: Version) returns (n: nat)
    requires Lawful(m) && Initial(w0) && version.tagWeight > 0.0
    requires var run := RunOf(LexicalEncoder(lex, m), w0, steps);
      Fair(run, steps) && Settled(run, steps, from) && run(from).db.setting == Some(version)
    ensures var run := RunOf(LexicalEncoder(lex, m), w0, steps);
      from <= n && forall i: nat | n <= i ::
        Drained(lex, m, version, run(i).db) && SameAnnotations(run(from).db, run(i).db)
  {
    var e := LexicalEncoder(lex, m);
    var run := RunOf(e, w0, steps);
    LexicalFaithful(lex, m);
    RunFollows(e, w0, steps);
    n := Drains(e, run, steps, from, from);
    forall i: nat | n <= i ensures Drained(lex, m, version, run(i).db) && SameAnnotations(run(from).db, run(i).db) {
      OnwardFrom(e, run, steps, from, n, i);
      OnwardFrom(e, run, steps, from, from, i);
      CompleteIsDrained(lex, m, run(i), version);
    }
  }
}
