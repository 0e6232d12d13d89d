/** Similar-image search over the stored vectors. */
module Discovery {
  import opened Basics
  import opened Tables
  import opened EmbeddingQueue
  import opened EmbeddingProtocol
  import opened Lexical
  import opened Sums
  import Ranking

  const LIMIT: nat := 10

  /** The image's job is ready, and its stored vector was built at the job's revision under the
      current setting. */
  predicate Visible(db: Db, i: int) {
    && i in db.jobs && i in db.embeddings
    && db.jobs[i].status == Ready && db.embeddings[i].builtRevision == db.jobs[i].revision
    && db.setting == Some(db.embeddings[i].version)
  }

  function StoredTerms(db: Db, i: int): map<string, real> {
    if i in db.terms then db.terms[i] else map[]
  }

  // ----- The inverted-index query -----

  /** Images sharing at least one stored term with the seed. */
  function Overlapping(db: Db, seed: int): set<int> {
    set c | c in db.terms && c != seed && StoredTerms(db, seed).Keys * db.terms[c].Keys != {}
  }

  /** Per candidate, the sum over the joined term rows. */
  ghost function JoinScore(db: Db, seed: int, c: int): real {
    Sum(StoredTerms(db, seed).Keys * StoredTerms(db, c).Keys, ProductOf(StoredTerms(db, seed), StoredTerms(db, c)))
  }

  ghost function Hits(db: Db, seed: int): map<int, real> {
    map c | c in Overlapping(db, seed) && Visible(db, c) && Visible(db, seed) :: JoinScore(db, seed, c)
  }

  function Score(hits: map<int, real>, c: int): real {
    if c in hits then hits[c] else 0.0
  }

  /** score DESC, image_id DESC */
  function HitOrder(hits: map<int, real>): (int, int) -> bool {
    (a, b) => Score(hits, a) > Score(hits, b) || (Score(hits, a) == Score(hits, b) && a > b)
  }

  lemma HitOrderTotal(hits: map<int, real>)
    ensures Ranking.StrictTotal(HitOrder(hits))
  {
  }

  ghost function BestIds(hits: map<int, real>): seq<int> {
    HitOrderTotal(hits);
    Ranking.Take(LIMIT, Ranking.Ranked(HitOrder(hits), hits.Keys))
  }

  /** The ten best hits with their scores. */
  ghost function Best(hits: map<int, real>): seq<(int, real)> {
    Scored(hits, BestIds(hits))
  }

  function Scored(hits: map<int, real>, ids: seq<int>): seq<(int, real)> {
    if ids == [] then [] else [(ids[0], Score(hits, ids[0]))] + Scored(hits, ids[1..])
  }

  // ----- The answer it stands for -----

  /** The vector of an image's annotations as they are now. */
  ghost function CurrentVector(e: Encoder, db: Db, i: int): map<string, real>
    requires db.setting.Some?
  {
    e.vector(db.setting.value, e.read(db, i))
  }

  ghost function Similarity(e: Encoder, db: Db, a: int, b: int): real
    requires db.setting.Some?
  {
    Dot(CurrentVector(e, db, a), CurrentVector(e, db, b))
  }

  /** Every other visible image compared in full with the seed. */
  ghost function BruteHits(e: Encoder, db: Db, seed: int): map<int, real>
    requires db.setting.Some?
  {
    map c | c in db.images && c != seed && Visible(db, c) && Similarity(e, db, seed, c) > 0.0 ::
      Similarity(e, db, seed, c)
  }

  /** Vectors are empty or of unit length with positive weights. */
  ghost predicate Geometric(e: Encoder) {
    forall version: Version, source :: version.tagWeight > 0.0 ==>
      var v := e.vector(version, source);
      (v == map[] || SquaredNorm(v) == 1.0) && forall t | t in v :: v[t] > 0.0
  }

  lemma LexicalGeometric(lex: Lexicon, m: Calculus)
    requires Lawful(m)
    ensures Geometric(LexicalEncoder(lex, m))
  {
    forall version: Version, source | version.tagWeight > 0.0
      ensures var v := LexicalEncoder(lex, m).vector(version, source);
        (v == map[] || SquaredNorm(v) == 1.0) && forall t | t in v :: v[t] > 0.0
    {
      VectorGeometry(lex, m, version.tagWeight, source);
    }
  }

  lemma PositiveOverlap(u: map<string, real>, v: map<string, real>)
    requires (forall t | t in u :: u[t] > 0.0) && (forall t | t in v :: v[t] > 0.0)
    ensures Dot(u, v) == Sum(u.Keys * v.Keys, ProductOf(u, v))
    ensures Dot(u, v) > 0.0 <==> u.Keys * v.Keys != {}
  {
    DropUnshared(u, v);
    if u.Keys * v.Keys != {} {
      forall t | t in u.Keys * v.Keys ensures ProductOf(u, v)(t) > 0.0 {
        ProductPositive(u[t], v[t]);
      }
      SumPositive(u.Keys * v.Keys, ProductOf(u, v));
    }
  }

  lemma StoredIsCurrent(e: Encoder, w: World, i: int)
    requires Faithful(e) && Geometric(e) && Inv(e, w) && Visible(w.db, i)
    ensures w.db.setting.Some? && i in w.db.images && i in w.db.terms
    ensures StoredTerms(w.db, i) == CurrentVector(e, w.db, i)
    ensures forall t | t in StoredTerms(w.db, i) :: 0.0 < StoredTerms(w.db, i)[t]
    ensures SquaredNorm(StoredTerms(w.db, i)) == 1.0 && StoredTerms(w.db, i) != map[]
  {
    assert VectorOk(e, w.db, i);
  }

  lemma HitAgrees(e: Encoder, w: World, seed: int, c: int)
    requires Faithful(e) && Geometric(e) && Inv(e, w) && Visible(w.db, seed) && Visible(w.db, c) && c != seed
    ensures w.db.setting.Some?
    ensures Similarity(e, w.db, seed, c) == JoinScore(w.db, seed, c)
    ensures Similarity(e, w.db, seed, c) > 0.0 <==> c in Overlapping(w.db, seed)
  {
    StoredIsCurrent(e, w, seed);
    StoredIsCurrent(e, w, c);
    PositiveOverlap(StoredTerms(w.db, seed), StoredTerms(w.db, c));
  }

  lemma SameHits(e: Encoder, w: World, seed: int)
    requires Faithful(e) && Geometric(e) && Inv(e, w) && Visible(w.db, seed)
    ensures w.db.setting.Some? && Hits(w.db, seed) == BruteHits(e, w.db, seed)
  {
    StoredIsCurrent(e, w, seed);
    forall c ensures AgreeAt(Hits(w.db, seed), BruteHits(e, w.db, seed), c) {
      SameHit(e, w, seed, c);
    }
    SameMaps(Hits(w.db, seed), BruteHits(e, w.db, seed));
  }

  lemma SameHit(e: Encoder, w: World, seed: int, c: int)
    requires Faithful(e) && Geometric(e) && Inv(e, w) && Visible(w.db, seed) && w.db.setting.Some?
    ensures AgreeAt(Hits(w.db, seed), BruteHits(e, w.db, seed), c)
  {
    if Visible(w.db, c) && c != seed {
      HitAgrees(e, w, seed, c);
      StoredIsCurrent(e, w, c);
    }
  }

  ghost predicate AgreeAt<K, V>(a: map<K, V>, b: map<K, V>, c: K) {
    (c in a <==> c in b) && (c in a ==> a[c] == b[c])
  }

  lemma SameMaps<K(!new), V>(a: map<K, V>, b: map<K, V>)
    requires forall c :: AgreeAt(a, b, c)
    ensures a == b
  {
    assert forall c :: c in a ==> AgreeAt(a, b, c);
    assert forall c :: c in b ==> AgreeAt(a, b, c);
  }

  /** In every reachable state the index answers exactly as a full comparison of the current
      annotations would: same images, same scores, same order. */
  lemma IndexIsBruteForce(e: Encoder, w0: World, steps: seq<Step>, seed: int)
    requires Faithful(e) && Geometric(e) && Initial(w0)
    ensures var db := Run(e, w0, steps).db;
      && (Visible(db, seed) ==>
            db.setting.Some? && Hits(db, seed) == BruteHits(e, db, seed)
              && Best(Hits(db, seed)) == Best(BruteHits(e, db, seed)))
      && (!Visible(db, seed) ==> Best(Hits(db, seed)) == [])
  {
    InitialInv(e, w0);
    RunInv(e, w0, steps);
    var w := Run(e, w0, steps);
    if Visible(w.db, seed) {
      SameHits(e, w, seed);
    } else {
      NoHits(w.db, seed);
    }
  }

  lemma SearchIsBruteForce(lex: Lexicon, m: Calculus, w0: World, steps: seq<Step>, seed: int)
    requires Lawful(m) && Initial(w0)
    ensures var e := LexicalEncoder(lex, m);
      var db := Run(e, w0, steps).db;
      && (Visible(db, seed) ==>
            db.setting.Some? && Hits(db, seed) == BruteHits(e, db, seed)
              && Best(Hits(db, seed)) == Best(BruteHits(e, db, seed)))
      && (!Visible(db, seed) ==> Best(Hits(db, seed)) == [])
  {
    LexicalFaithful(lex, m);
    LexicalGeometric(lex, m);
    IndexIsBruteForce(LexicalEncoder(lex, m), w0, steps, seed);
  }

  lemma NoHits(db: Db, seed: int)
    requires !Visible(db, seed)
    ensures Best(Hits(db, seed)) == []
  {
    assert Hits(db, seed) == map[];
    HitOrderTotal(map[]);
    var none := Ranking.Ranked(HitOrder(map[]), {});
    Ranking.SortedDistinct(HitOrder(map[]), none);
    Ranking.DistinctSize(none);
    assert Best(map[]) == Scored(map[], Ranking.Take(LIMIT, none));
  }

  /** Every reported similarity lies in (0, 1]. */
  lemma ScoresAreCosines(lex: Lexicon, m: Calculus, w0: World, steps: seq<Step>, seed: int, c: int)
    requires Lawful(m) && Initial(w0)
    ensures var hits := Hits(Run(LexicalEncoder(lex, m), w0, steps).db, seed);
      c in hits ==> 0.0 < hits[c] <= 1.0
  {
    var e := LexicalEncoder(lex, m);
    LexicalFaithful(lex, m);
    LexicalGeometric(lex, m);
    InitialInv(e, w0);
    RunInv(e, w0, steps);
    if c in Hits(Run(e, w0, steps).db, seed) {
      HitIsCosine(e, Run(e, w0, steps), seed, c);
    }
  }

  lemma HitIsCosine(e: Encoder, w: World, seed: int, c: int)
    requires Faithful(e) && Geometric(e) && Inv(e, w) && c in Hits(w.db, seed)
    ensures 0.0 < Hits(w.db, seed)[c] <= 1.0
  {
    HitAgrees(e, w, seed, c);
    StoredIsCurrent(e, w, seed);
    StoredIsCurrent(e, w, c);
    SimilarityAtMostOne(StoredTerms(w.db, seed), StoredTerms(w.db, c));
  }

  // ----- The handler -----

  datatype State = ReadyState | Indexing | Retrying | NoContext

  datatype Response = NotFound | Answer(state: State, items: seq<(int, real)>)

  function ReportedState(db: Db, i: int): State {
    if Visible(db, i) then ReadyState
    else if i !in db.jobs || db.jobs[i].status == Empty then NoContext
    else if db.jobs[i].status == Failed then Retrying
    else Indexing
  }

  /** Hits whose images still exist when their summaries are loaded. */
  function Surviving(images: set<int>, rows: seq<(int, real)>): seq<(int, real)> {
    if rows == [] then []
    else (if rows[0].0 in images then [rows[0]] else []) + Surviving(images, rows[1..])
  }

  ghost predicate DistinctIds(rows: seq<(int, real)>) {
    forall i, j | 0 <= i < j < |rows| :: rows[i].0 != rows[j].0
  }

  /** The answer to a request: rows are what its scoring query returned, the other three queries see
      the tables at three moments. */
  function Reply(atExists: Db, atStatus: Db, rows: seq<(int, real)>, atSummaries: Db, id: int): Response {
    if id !in atExists.images then NotFound
    else if !Visible(atStatus, id) then Answer(ReportedState(atStatus, id), [])
    else Answer(ReadyState, Surviving(atSummaries.images, rows))
  }

  /** similarImages: its four queries see the tables at four moments; `rows` is what the scoring
      query returned at the third. */
  method SimilarImages(atExists: Db, atStatus: Db, ghost atScores: Db, atSummaries: Db, id: int, rows: seq<(int, real)>)
    returns (response: Response)
    requires rows == Best(Hits(atScores, id))
    ensures response == Reply(atExists, atStatus, Best(Hits(atScores, id)), atSummaries, id)
  {
    if id !in atExists.images {
      return NotFound;
    }
    var hasRow := id in atStatus.jobs;
    var state := Indexing;
    if !hasRow || atStatus.jobs[id].status == Empty {
      state := NoContext;
    } else if atStatus.jobs[id].status == Failed {
      state := Retrying;
    }
    var valid := hasRow && id in atStatus.embeddings && atStatus.jobs[id].status == Ready
      && atStatus.embeddings[id].builtRevision == atStatus.jobs[id].revision
      && atStatus.setting == Some(atStatus.embeddings[id].version);
    if !valid {
      return Answer(state, []);
    }
    BestShape(Hits(atScores, id));
    var items := Summarize(atSummaries.images, rows);
    return Answer(ReadyState, items);
  }

  /** Collects ids and scores, loads the summaries that still exist, and attaches the scores. */
  method Summarize(images: set<int>, rows: seq<(int, real)>) returns (items: seq<(int, real)>)
    requires DistinctIds(rows)
    ensures items == Surviving(images, rows)
  {
    var ids: seq<int>, scores: map<int, real> := [], map[];
    for k := 0 to |rows|
      invariant |ids| == k && forall i | 0 <= i < k :: ids[i] == rows[i].0
      invariant forall i | 0 <= i < k :: rows[i].0 in scores && scores[rows[i].0] == rows[i].1
    {
      ids := ids + [rows[k].0];
      scores := scores[rows[k].0 := rows[k].1];
    }
    items := [];
    for k := 0 to |ids|
      invariant items + Surviving(images, rows[k..]) == Surviving(images, rows)
    {
      assert rows[k..][1..] == rows[k + 1..];
      if ids[k] in images {
        assert rows[k] == (ids[k], scores[ids[k]]);
        items := items + [(ids[k], scores[ids[k]])];
      }
    }
  }

  /** Rows of the scoring query never repeat an image, and number at most ten. */
  lemma BestShape(hits: map<int, real>)
    ensures DistinctIds(Best(hits)) && |Best(hits)| <= LIMIT
    ensures forall r | r in Best(hits) :: r.0 in hits && r.1 == hits[r.0]
  {
    HitOrderTotal(hits);
    var all := Ranking.Ranked(HitOrder(hits), hits.Keys);
    Ranking.SortedDistinct(HitOrder(hits), all);
    ScoredShape(hits, Ranking.Take(LIMIT, all));
    assert forall id | id in all :: id in Ranking.Elements(all);
  }

  lemma {:induction false} ScoredShape(hits: map<int, real>, ids: seq<int>)
    ensures |Scored(hits, ids)| == |ids| && forall k | 0 <= k < |ids| ::
      Scored(hits, ids)[k] == (ids[k], Score(hits, ids[k]))
  {
    if ids != [] {
      ScoredShape(hits, ids[1..]);
    }
  }

  /** a has the higher score of two scored images, or the larger id of two with equal scores. */
  ghost predicate Leads(hits: map<int, real>, a: int, c: int) {
    a in hits && c in hits && (hits[a] > hits[c] || (hits[a] == hits[c] && a > c))
  }

  ghost function Leaders(hits: map<int, real>, c: int): set<int> {
    set a | a in hits && Leads(hits, a, c)
  }

  ghost predicate Listed(rows: seq<(int, real)>, c: int) {
    exists k :: 0 <= k < |rows| && rows[k].0 == c
  }

  /** rows are the ten best of the scored images in order, with their scores: an image is listed exactly when
      fewer than ten lead it, and one that is not listed is led by every listed one. */
  ghost predicate BestTen(hits: map<int, real>, rows: seq<(int, real)>) {
    && |rows| == Min(10, |hits|)
    && (forall k | 0 <= k < |rows| :: rows[k].0 in hits && rows[k].1 == hits[rows[k].0])
    && (forall j, k | 0 <= j < k < |rows| :: Leads(hits, rows[j].0, rows[k].0))
    && (forall c | c in hits :: Listed(rows, c) <==> |Leaders(hits, c)| < 10)
    && (forall c, k | c in hits && !Listed(rows, c) && 0 <= k < |rows| :: Leads(hits, rows[k].0, c))
  }

  lemma BestRanks(hits: map<int, real>)
    ensures BestTen(hits, Best(hits))
  {
    IdsRank(hits);
    ScoredShape(hits, BestIds(hits));
    forall c | c in hits
      ensures c in BestIds(hits) <==> |Leaders(hits, c)| < 10
      ensures c !in BestIds(hits) ==> forall k | 0 <= k < |BestIds(hits)| :: Leads(hits, BestIds(hits)[k], c)
    {
      BestIsRank(hits, c);
      if c !in BestIds(hits) { LeftOut(hits, c); }
    }
    RowsRank(hits, BestIds(hits), Best(hits));
  }

  lemma RowsRank(hits: map<int, real>, ids: seq<int>, rows: seq<(int, real)>)
    requires |rows| == |ids| == Min(10, |hits|)
    requires forall k | 0 <= k < |ids| :: rows[k] == (ids[k], Score(hits, ids[k])) && ids[k] in hits
    requires forall j, k | 0 <= j < k < |ids| :: Leads(hits, ids[j], ids[k])
    requires forall c | c in hits :: c in ids <==> |Leaders(hits, c)| < 10
    requires forall c, k | c in hits && c !in ids && 0 <= k < |ids| :: Leads(hits, ids[k], c)
    ensures BestTen(hits, rows)
  {
    forall c ensures Listed(rows, c) <==> c in ids {
      if k :| 0 <= k < |ids| && ids[k] == c { assert rows[k].0 == c; }
    }
  }

  lemma AllRank(hits: map<int, real>, all: seq<int>)
    requires Ranking.Lists(HitOrder(hits), all, hits.Keys)
    ensures forall k | 0 <= k < |all| :: all[k] in hits
    ensures forall j, k | 0 <= j < k < |all| :: Leads(hits, all[j], all[k])
  {
    assert forall k | 0 <= k < |all| :: all[k] in Ranking.Elements(all);
    forall j, k | 0 <= j < k < |all| ensures Leads(hits, all[j], all[k]) {
      assert HitOrder(hits)(all[j], all[k]);
    }
  }

  lemma IdsRank(hits: map<int, real>)
    ensures |BestIds(hits)| == Min(10, |hits|)
    ensures forall k | 0 <= k < |BestIds(hits)| :: BestIds(hits)[k] in hits
    ensures forall j, k | 0 <= j < k < |BestIds(hits)| :: Leads(hits, BestIds(hits)[j], BestIds(hits)[k])
  {
    HitOrderTotal(hits);
    var all := Ranking.Ranked(HitOrder(hits), hits.Keys);
    assert |all| == |hits| by {
      Ranking.SortedDistinct(HitOrder(hits), all);
      Ranking.DistinctSize(all);
    }
    AllRank(hits, all);
  }

  lemma LeftOut(hits: map<int, real>, c: int)
    requires c in hits && c !in BestIds(hits)
    ensures forall k | 0 <= k < |BestIds(hits)| :: Leads(hits, BestIds(hits)[k], c)
  {
    HitOrderTotal(hits);
    var all := Ranking.Ranked(HitOrder(hits), hits.Keys);
    AllRank(hits, all);
    assert c in Ranking.Elements(all);
    var n :| 0 <= n < |all| && all[n] == c;
    assert n < |BestIds(hits)| ==> c in BestIds(hits);
  }

  lemma BestIsRank(hits: map<int, real>, c: int)
    requires c in hits
    ensures c in BestIds(hits) <==> |Leaders(hits, c)| < 10
  {
    HitOrderTotal(hits);
    Ranking.TakeIsRank(HitOrder(hits), Ranking.Ranked(HitOrder(hits), hits.Keys), hits.Keys, LIMIT, c);
    assert Ranking.Ahead(HitOrder(hits), hits.Keys, c) == Leaders(hits, c);
  }

  /** The state shown to the user is the truth about the annotations: ready exactly when the job
      is ready, and "no context" only when no positive weight would index anything. */
  lemma ReportedStateIsTrue(lex: Lexicon, m: Calculus, w0: World, steps: seq<Step>, id: int, tagWeight: real)
    requires Lawful(m) && Initial(w0) && tagWeight > 0.0
    ensures var db := Run(LexicalEncoder(lex, m), w0, steps).db;
      && (ReportedState(db, id) == ReadyState <==> id in db.jobs && db.jobs[id].status == Ready)
      && (ReportedState(db, id) == NoContext ==> VectorOf(lex, m, tagWeight, SourceOf(db, id)) == map[])
  {
    var db := Run(LexicalEncoder(lex, m), w0, steps).db;
    JobTable(lex, m, w0, steps, id);
    NothingToIndex(lex, m, w0, steps, id, tagWeight);
    ShownState(db, id);
  }

  lemma ShownState(db: Db, id: int)
    requires id in db.jobs && db.jobs[id].status == Ready ==>
               id in db.embeddings && db.embeddings[id].builtRevision == db.jobs[id].revision
                 && db.setting == Some(db.embeddings[id].version)
    ensures ReportedState(db, id) == ReadyState <==> id in db.jobs && db.jobs[id].status == Ready
    ensures ReportedState(db, id) == NoContext ==> id !in db.jobs || db.jobs[id].status == Empty
  {
  }

  /** The k-th state of a run. */
  ghost function StateAt(e: Encoder, w0: World, steps: seq<Step>, k: nat): Db
    requires k <= |steps|
  {
    Run(e, w0, steps[..k]).db
  }

  /** The images a full comparison ranks first in a state, none when the seed has no current vector. */
  ghost function BestMatches(e: Encoder, db: Db, seed: int): seq<(int, real)> {
    if Visible(db, seed) && db.setting.Some? then Best(BruteHits(e, db, seed)) else []
  }

  lemma {:induction false} SurvivingItems(images: set<int>, rows: seq<(int, real)>, item: (int, real))
    ensures item in Surviving(images, rows) <==> item in rows && item.0 in images
  {
    if rows != [] { SurvivingItems(images, rows[1..], item); }
  }

  lemma ReplyShape(atExists: Db, atStatus: Db, matches: seq<(int, real)>, atEnd: Db, id: int)
    ensures var reply := Reply(atExists, atStatus, matches, atEnd, id);
      && (reply.NotFound? <==> id !in atExists.images)
      && (reply.Answer? ==>
            && reply.state == ReportedState(atStatus, id)
            && reply.items == (if reply.state == ReadyState then Surviving(atEnd.images, matches) else [])
            && forall item :: item in reply.items ==> item in matches && item.0 in atEnd.images)
  {
    forall item { SurvivingItems(atEnd.images, matches, item); }
  }

  lemma HitsAreMatches(lex: Lexicon, m: Calculus, w0: World, steps: seq<Step>, seed: int)
    requires Lawful(m) && Initial(w0)
    ensures var e := LexicalEncoder(lex, m);
      var db := Run(e, w0, steps).db;
      Best(Hits(db, seed)) == BestMatches(e, db, seed)
  {
    SearchIsBruteForce(lex, m, w0, steps, seed);
  }

  /** A request answered while the system runs, its queries seeing states i <= j <= k <= l of one run:
      its items are, in order, the best matches of a full comparison in state k, all but those whose
      images are gone by state l; its status is the truth about state j. */
  lemma SimilarInRun(lex: Lexicon, m: Calculus, w0: World, steps: seq<Step>, i: nat, j: nat, k: nat, l: nat, id: int)
    requires Lawful(m) && Initial(w0) && i <= j <= k <= l <= |steps|
    ensures var e := LexicalEncoder(lex, m);
      var atStatus, atScores, atEnd := StateAt(e, w0, steps, j), StateAt(e, w0, steps, k), StateAt(e, w0, steps, l);
      var reply := Reply(StateAt(e, w0, steps, i), atStatus, Best(Hits(atScores, id)), atEnd, id);
      var matches := BestMatches(e, atScores, id);
      && (reply.NotFound? <==> id !in StateAt(e, w0, steps, i).images)
      && (reply.Answer? ==>
            && reply.state == ReportedState(atStatus, id)
            && reply.items == (if reply.state == ReadyState then Surviving(atEnd.images, matches) else [])
            && forall item :: item in reply.items ==> item in matches && item.0 in atEnd.images)
  {
    var e := LexicalEncoder(lex, m);
    HitsAreMatches(lex, m, w0, steps[..k], id);
    ReplyShape(StateAt(e, w0, steps, i), StateAt(e, w0, steps, j), BestMatches(e, StateAt(e, w0, steps, k), id),
               StateAt(e, w0, steps, l), id);
  }

  /** c is another visible image with a positive similarity to a visible image over the annotations as they are. */
  ghost predicate Similar(e: Encoder, db: Db, id: int, c: int) {
    && c in db.images && c != id && Visible(db, c) && Visible(db, id)
    && db.setting.Some? && Similarity(e, db, id, c) > 0.0
  }

  /** The similar images ahead of c: more similar, or equally similar with a larger id. */
  ghost function AheadOf(e: Encoder, db: Db, id: int, c: int): set<int>
    requires db.setting.Some?
  {
    set a | a in db.images && Similar(e, db, id, a)
      && (Similarity(e, db, id, a) > Similarity(e, db, id, c)
          || (Similarity(e, db, id, a) == Similarity(e, db, id, c) && a > c))
  }

  /** Every item is a similar image with its similarity, the most similar first. */
  ghost predicate SoundItems(e: Encoder, db: Db, id: int, items: seq<(int, real)>) {
    && (forall p | 0 <= p < |items| ::
          Similar(e, db, id, items[p].0) && items[p].1 == Similarity(e, db, id, items[p].0))
    && Ordered(items)
  }

  ghost predicate Ordered(items: seq<(int, real)>) {
    forall p, q | 0 <= p < q < |items| ::
      items[p].1 > items[q].1 || (items[p].1 == items[q].1 && items[p].0 > items[q].0)
  }

  /** A similar image that still exists at the end is among the items exactly when fewer than ten are ahead of
      it; one that is not among them is behind every item. */
  ghost predicate CompleteItems(e: Encoder, db: Db, atEnd: Db, id: int, items: seq<(int, real)>) {
    forall c | c in atEnd.images && Similar(e, db, id, c) ::
      && (Listed(items, c) <==> |AheadOf(e, db, id, c)| < 10)
      && (!Listed(items, c) ==> forall p | 0 <= p < |items| ::
            Similarity(e, db, id, c) < items[p].1 || (Similarity(e, db, id, c) == items[p].1 && c < items[p].0))
  }

  /** The items of an answer given while the system runs are the ten images most similar over the annotations
      of state k, in order, all but those whose images are gone by state l. */
  lemma BestInRun(lex: Lexicon, m: Calculus, w0: World, steps: seq<Step>, i: nat, j: nat, k: nat, l: nat, id: int)
    requires Lawful(m) && Initial(w0) && i <= j <= k <= l <= |steps|
    ensures var e := LexicalEncoder(lex, m);
      var atScores, atEnd := StateAt(e, w0, steps, k), StateAt(e, w0, steps, l);
      var reply := Reply(StateAt(e, w0, steps, i), StateAt(e, w0, steps, j), Best(Hits(atScores, id)), atEnd, id);
      && (reply.Answer? ==> SoundItems(e, atScores, id, reply.items))
      && (reply.Answer? && reply.state == ReadyState ==> CompleteItems(e, atScores, atEnd, id, reply.items))
  {
    HitsAreMatches(lex, m, w0, steps[..k], id);
    ReplyRanks(LexicalEncoder(lex, m), StateAt(LexicalEncoder(lex, m), w0, steps, i),
               StateAt(LexicalEncoder(lex, m), w0, steps, j), StateAt(LexicalEncoder(lex, m), w0, steps, k),
               StateAt(LexicalEncoder(lex, m), w0, steps, l), id);
  }

  lemma ReplyRanks(e: Encoder, atExists: Db, atStatus: Db, atScores: Db, atEnd: Db, id: int)
    ensures var reply := Reply(atExists, atStatus, BestMatches(e, atScores, id), atEnd, id);
      && (reply.Answer? ==> SoundItems(e, atScores, id, reply.items))
      && (reply.Answer? && reply.state == ReadyState ==> CompleteItems(e, atScores, atEnd, id, reply.items))
  {
    var matches := BestMatches(e, atScores, id);
    ReplyShape(atExists, atStatus, matches, atEnd, id);
    assert SoundItems(e, atScores, id, []);
    assert SoundItems(e, atScores, id, Surviving(atEnd.images, matches))
        && CompleteItems(e, atScores, atEnd, id, Surviving(atEnd.images, matches)) by {
      MatchesRank(e, atScores, id);
      SurvivorsRank(e, atScores, atEnd, id, matches);
    }
  }

  lemma MatchesRank(e: Encoder, db: Db, id: int)
    ensures SoundItems(e, db, id, BestMatches(e, db, id))
    ensures CompleteItems(e, db, db, id, BestMatches(e, db, id))
  {
    if Visible(db, id) && db.setting.Some? {
      BestRanks(BruteHits(e, db, id));
      RankedItems(e, db, id, BruteHits(e, db, id), BestMatches(e, db, id));
    }
  }

  lemma RankedItems(e: Encoder, db: Db, id: int, hits: map<int, real>, rows: seq<(int, real)>)
    requires Visible(db, id) && db.setting.Some? && hits == BruteHits(e, db, id) && BestTen(hits, rows)
    ensures SoundItems(e, db, id, rows) && CompleteItems(e, db, db, id, rows)
  {
    forall c ensures c in hits <==> Similar(e, db, id, c) {}
    forall c | Similar(e, db, id, c) ensures Leaders(hits, c) == AheadOf(e, db, id, c) {}
  }

  lemma SurvivorsRank(e: Encoder, db: Db, atEnd: Db, id: int, matches: seq<(int, real)>)
    requires SoundItems(e, db, id, matches) && CompleteItems(e, db, db, id, matches)
    ensures SoundItems(e, db, id, Surviving(atEnd.images, matches))
    ensures CompleteItems(e, db, atEnd, id, Surviving(atEnd.images, matches))
  {
    forall item { SurvivingItems(atEnd.images, matches, item); }
    SurvivingOrdered(atEnd.images, matches);
  }

  lemma {:induction false} SurvivingOrdered(images: set<int>, rows: seq<(int, real)>)
    requires Ordered(rows)
    ensures Ordered(Surviving(images, rows))
  {
    if rows != [] {
      var rest := Surviving(images, rows[1..]);
      SurvivingOrdered(images, rows[1..]);
      forall q | 0 <= q < |rest| ensures rows[0].1 > rest[q].1 || (rows[0].1 == rest[q].1 && rows[0].0 > rest[q].0) {
        SurvivingItems(images, rows[1..], rest[q]);
      }
    }
  }

  /** And its status is the truth about the annotations in state j. */
  lemma StatusInRun(lex: Lexicon, m: Calculus, w0: World, steps: seq<Step>, j: nat, id: int, tagWeight: real)
    requires Lawful(m) && Initial(w0) && j <= |steps| && tagWeight > 0.0
    ensures var atStatus := StateAt(LexicalEncoder(lex, m), w0, steps, j);
      && (ReportedState(atStatus, id) == ReadyState <==> id in atStatus.jobs && atStatus.jobs[id].status == Ready)
      && (ReportedState(atStatus, id) == NoContext ==> VectorOf(lex, m, tagWeight, SourceOf(atStatus, id)) == map[])
  {
    ReportedStateIsTrue(lex, m, w0, steps[..j], id, tagWeight);
  }
}
