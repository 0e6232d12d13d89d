/** The image catalog under indexing: stamped upserts, stale-row deletion, and reconciliation with
    the tree. */
module IndexCatalog {
  import opened Basics
  import opened FileTree
  import opened LikePatterns

  type JobId = int

  /** A catalog row; paths are unique. The stamp is the last index job that saw the file. */
  datatype Row = Row(name: string, size: Option<int>, hits: int, uploader: Option<int>, stamp: Option<JobId>)

  type Catalog = map<string, Row>

  datatype Job = Job(id: JobId, rootPath: string, maxDepth: Option<int>, requestedBy: Option<int>)

  datatype Counters = Counters(discovered: nat, processed: nat, indexed: nat, updated: nat, skipped: nat, errors: nat,
                               deindexed: nat)

  // ----- Upserts -----

  /** INSERT ... ON CONFLICT DO UPDATE of one file. */
  function Upserted(c: Catalog, f: MediaFile, job: Job): Row {
    if f.path in c then c[f.path].(size := Some(f.size), stamp := Some(job.id))
    else Row(f.name, Some(f.size), 0, job.requestedBy, Some(job.id))
  }

  function UpsertAll(c: Catalog, fs: seq<MediaFile>, job: Job): Catalog {
    if fs == [] then c
    else
      var before, f := UpsertAll(c, fs[..|fs| - 1], job), fs[|fs| - 1];
      before[f.path := Upserted(before, f, job)]
  }

  /** One batch after another is the same as all files at once. */
  lemma {:induction false} UpsertAppend(c: Catalog, a: seq<MediaFile>, b: seq<MediaFile>, job: Job)
    ensures UpsertAll(UpsertAll(c, a, job), b, job) == UpsertAll(c, a + b, job)
  {
    if b == [] {
      assert a + b == a;
    } else {
      UpsertAppend(c, a, b[..|b| - 1], job);
      assert (a + b)[..|a + b| - 1] == a + b[..|b| - 1];
    }
  }

  ghost predicate HasPath(fs: seq<MediaFile>, path: string) {
    exists i | 0 <= i < |fs| :: fs[i].path == path
  }

  lemma ShorterHasPath(fs: seq<MediaFile>, k: nat, p: string)
    requires k <= |fs| && HasPath(fs[..k], p)
    ensures HasPath(fs, p)
  {
    var i :| 0 <= i < k && fs[..k][i].path == p;
    assert fs[i].path == p;
  }

  lemma {:induction false} UpsertElsewhere(c: Catalog, fs: seq<MediaFile>, job: Job, p: string)
    requires !HasPath(fs, p)
    ensures (p in UpsertAll(c, fs, job) <==> p in c) && (p in c ==> UpsertAll(c, fs, job)[p] == c[p])
  {
    if fs != [] {
      var k := |fs| - 1;
      if HasPath(fs[..k], p) { ShorterHasPath(fs, k, p); }
      assert fs[k].path != p;
      UpsertElsewhere(c, fs[..k], job, p);
    }
  }

  lemma {:induction false} UpsertFile(c: Catalog, fs: seq<MediaFile>, job: Job, i: nat)
    requires DistinctPaths(fs) && i < |fs|
    ensures fs[i].path in UpsertAll(c, fs, job) && UpsertAll(c, fs, job)[fs[i].path] == Upserted(c, fs[i], job)
  {
    var k := |fs| - 1;
    if i == k {
      assert !HasPath(fs[..k], fs[k].path);
      UpsertElsewhere(c, fs[..k], job, fs[k].path);
    } else {
      assert fs[k].path != fs[i].path;
      UpsertFile(c, fs[..k], job, i);
    }
  }

  /** What upserting files with distinct paths leaves behind. */
  lemma UpsertRows(c: Catalog, fs: seq<MediaFile>, job: Job)
    requires DistinctPaths(fs)
    ensures forall p | p in UpsertAll(c, fs, job) :: p in c || HasPath(fs, p)
    ensures forall p | p in c && !HasPath(fs, p) :: p in UpsertAll(c, fs, job) && UpsertAll(c, fs, job)[p] == c[p]
    ensures forall i | 0 <= i < |fs| ::
      fs[i].path in UpsertAll(c, fs, job) && UpsertAll(c, fs, job)[fs[i].path] == Upserted(c, fs[i], job)
  {
    forall p | !HasPath(fs, p)
      ensures (p in UpsertAll(c, fs, job) <==> p in c) && (p in c ==> UpsertAll(c, fs, job)[p] == c[p])
    {
      UpsertElsewhere(c, fs, job, p);
    }
    forall i | 0 <= i < |fs|
      ensures fs[i].path in UpsertAll(c, fs, job) && UpsertAll(c, fs, job)[fs[i].path] == Upserted(c, fs[i], job)
    {
      UpsertFile(c, fs, job, i);
    }
  }

  // ----- Counting -----

  datatype Change = Indexed | Updated | Skipped

  function Classify(c: Catalog, f: MediaFile): Change {
    if f.path !in c then Indexed else if c[f.path].size != Some(f.size) then Updated else Skipped
  }

  function Tally(c: Catalog, fs: seq<MediaFile>, change: Change): (n: nat)
    ensures n <= |fs|
  {
    if fs == [] then 0 else Tally(c, fs[..|fs| - 1], change) + if Classify(c, fs[|fs| - 1]) == change then 1 else 0
  }

  /** Every file is counted exactly once. */
  lemma {:induction false} TallyTotal(c: Catalog, fs: seq<MediaFile>)
    ensures Tally(c, fs, Indexed) + Tally(c, fs, Updated) + Tally(c, fs, Skipped) == |fs|
  {
    if fs != [] { TallyTotal(c, fs[..|fs| - 1]); }
  }

  lemma {:induction false} TallyAgree(c: Catalog, d: Catalog, fs: seq<MediaFile>, change: Change)
    requires forall i | 0 <= i < |fs| :: Classify(c, fs[i]) == Classify(d, fs[i])
    ensures Tally(c, fs, change) == Tally(d, fs, change)
  {
    if fs != [] { TallyAgree(c, d, fs[..|fs| - 1], change); }
  }

  lemma {:induction false} TallyAppend(c: Catalog, a: seq<MediaFile>, b: seq<MediaFile>, change: Change)
    ensures Tally(c, a + b, change) == Tally(c, a, change) + Tally(c, b, change)
  {
    if b == [] {
      assert a + b == a;
    } else {
      TallyAppend(c, a, b[..|b| - 1], change);
      assert (a + b)[..|a + b| - 1] == a + b[..|b| - 1];
    }
  }

  /** Classifying a later batch against the already changed catalog gives what classifying it
      against the original catalog would: batch boundaries do not show in the counters. */
  lemma BatchTally(c: Catalog, done: seq<MediaFile>, batch: seq<MediaFile>, job: Job, change: Change)
    requires DistinctPaths(done + batch)
    ensures Tally(c, done, change) + Tally(UpsertAll(c, done, job), batch, change) == Tally(c, done + batch, change)
  {
    var d, all := UpsertAll(c, done, job), done + batch;
    assert DistinctPaths(done) by { assert forall i | 0 <= i < |done| :: done[i] == all[i]; }
    UpsertRows(c, done, job);
    forall i | 0 <= i < |batch| ensures Classify(c, batch[i]) == Classify(d, batch[i]) {
      assert all[|done| + i] == batch[i];
      assert forall j | 0 <= j < |done| :: done[j] == all[j];
      assert !HasPath(done, batch[i].path);
    }
    TallyAgree(c, d, batch, change);
    TallyAppend(c, done, batch, change);
  }

  /** The catalog grows by the files counted as indexed. */
  lemma {:induction false} UpsertSize(c: Catalog, fs: seq<MediaFile>, job: Job)
    requires DistinctPaths(fs)
    ensures |UpsertAll(c, fs, job)| == |c| + Tally(c, fs, Indexed)
  {
    if fs != [] {
      var k := |fs| - 1;
      var before, f := UpsertAll(c, fs[..k], job), fs[k];
      UpsertSize(c, fs[..k], job);
      assert !HasPath(fs[..k], f.path);
      UpsertElsewhere(c, fs[..k], job, f.path);
      assert before[f.path := Upserted(before, f, job)].Keys == before.Keys + {f.path};
      SizeOfKeys(before);
      SizeOfKeys(UpsertAll(c, fs, job));
    }
  }

  lemma SizeOfKeys<K, V>(m: map<K, V>)
    ensures |m| == |m.Keys|
  {
  }

  // ----- Deletion -----

  /** DELETE of the rows in scope, all of them or only those the job did not stamp. */
  function Doomed(c: Catalog, job: Job, onlyStale: bool): set<string> {
    set p | p in c && InScope(p, job.rootPath) && (onlyStale ==> c[p].stamp != Some(job.id))
  }

  function DeleteScope(c: Catalog, job: Job, onlyStale: bool): Catalog {
    c - Doomed(c, job, onlyStale)
  }

  lemma DeleteSize(c: Catalog, job: Job, onlyStale: bool)
    ensures |DeleteScope(c, job, onlyStale)| + |Doomed(c, job, onlyStale)| == |c|
  {
    var doomed := Doomed(c, job, onlyStale);
    assert DeleteScope(c, job, onlyStale).Keys == c.Keys - doomed;
    assert doomed <= c.Keys;
    assert |c.Keys - doomed| == |c.Keys| - |doomed| by { assert c.Keys - doomed + doomed == c.Keys; }
    SizeOfKeys(c);
    SizeOfKeys(DeleteScope(c, job, onlyStale));
  }

  // ----- A whole scan -----

  /** What the job's root turns out to be; base is a regular file's own name. */
  datatype Root =
    | Missing
    | Unavailable
    | LinkRoot
    | Directory(readable: bool, listing: Listing)
    | Regular(base: string, size: int)
    | Odd

  function RootParts(rootPath: string): seq<string> {
    if rootPath == "" then [] else Split(rootPath)
  }

  /** The files a scan finds, and the errors it counts. */
  function ScanFiles(n: Names, job: Job, root: Root): seq<MediaFile> {
    match root
    case Directory(readable, l) => if readable then Found(n, l, RootParts(job.rootPath), 0, job.maxDepth) else []
    case Regular(base, size) => if Supported(n, base) then [MediaFile(job.rootPath, base, size)] else []
    case _ => []
  }

  function ScanErrors(n: Names, job: Job, root: Root): nat {
    match root
    case Directory(readable, l) => if readable then Errors(n, l, RootParts(job.rootPath), 0, job.maxDepth) else 1
    case Regular(base, _) => if Supported(n, base) then 0 else 1
    case Odd => 1
    case _ => 0
  }

  /** Only a complete scan without a depth limit may delete. */
  predicate Authoritative(n: Names, job: Job, root: Root) {
    ScanErrors(n, job, root) == 0 && job.maxDepth.None?
  }

  /** The catalog after a scan that ran to its end. */
  function Scanned(n: Names, c: Catalog, job: Job, root: Root): Catalog {
    if root.Missing? then DeleteScope(c, job, false)
    else
      var after := UpsertAll(c, ScanFiles(n, job, root), job);
      if Authoritative(n, job, root) then DeleteScope(after, job, true) else after
  }

  /** The counters of a scan that ran to its end. */
  function ScanCounters(n: Names, c: Catalog, job: Job, root: Root): Counters {
    if root.Missing? then Counters(0, 0, 0, 0, 0, 0, |Doomed(c, job, false)|)
    else
      var fs := ScanFiles(n, job, root);
      var after := UpsertAll(c, fs, job);
      Counters(|fs|, |fs|, Tally(c, fs, Indexed), Tally(c, fs, Updated), Tally(c, fs, Skipped),
               ScanErrors(n, job, root),
               if Authoritative(n, job, root) then |Doomed(after, job, true)| else 0)
  }

  /** A root that is scanned or found missing, reached through safe names. */
  predicate GoodRoot(n: Names, job: Job, root: Root) {
    && SafeParts(n, RootParts(job.rootPath))
    && !root.Unavailable? && !root.LinkRoot?
    && (root.Directory? ==> Proper(root.listing))
    && (root.Missing? ==> job.rootPath != "")
  }

  lemma RootJoins(rootPath: string)
    ensures Join("$", RootParts(rootPath)) == rootPath
  {
    if rootPath != "" { SplitJoin(rootPath); }
  }

  /** A scan's files have distinct paths inside the job's subtree. */
  lemma ScanDistinct(n: Names, job: Job, root: Root)
    requires GoodRoot(n, job, root)
    ensures DistinctPaths(ScanFiles(n, job, root))
    ensures forall f | f in ScanFiles(n, job, root) :: InSubtree(f.path, job.rootPath)
  {
    var parts := RootParts(job.rootPath);
    if root.Directory? && root.readable {
      FoundDistinct(n, root.listing, parts, 0, job.maxDepth);
      RootJoins(job.rootPath);
      forall f | f in ScanFiles(n, job, root) ensures InSubtree(f.path, job.rootPath) {
        FoundBelow(n, root.listing, parts, 0, job.maxDepth, f);
      }
    }
  }

  /** Rows in scope that already carried the job's stamp before the scan started. */
  ghost predicate Stamped(c: Catalog, job: Job, p: string) {
    p in c && c[p].stamp == Some(job.id)
  }

  /** Exactly what an authoritative scan leaves: in scope, the found files and whatever already
      carried the stamp; outside it, what was there. Surviving rows keep name, hits and uploader. */
  lemma Reconciled(n: Names, c: Catalog, job: Job, root: Root, p: string)
    requires GoodRoot(n, job, root) && !root.Missing? && Authoritative(n, job, root) && PlainText(job.rootPath)
    ensures var fs, after := ScanFiles(n, job, root), Scanned(n, c, job, root);
      && (InSubtree(p, job.rootPath) ==> (p in after <==> HasPath(fs, p) || Stamped(c, job, p)))
      && (!InSubtree(p, job.rootPath) ==> (p in after <==> p in c) && (p in c ==> after[p] == c[p]))
      && (p in after && p in c ==>
          after[p].name == c[p].name && after[p].hits == c[p].hits && after[p].uploader == c[p].uploader)
  {
    var fs := ScanFiles(n, job, root);
    ScanDistinct(n, job, root);
    UpsertRows(c, fs, job);
    ScopeIsSubtree(p, job.rootPath);
    if HasPath(fs, p) {
      var i :| 0 <= i < |fs| && fs[i].path == p;
      assert fs[i] in fs;
    }
  }

  /** after has none of the root's own rows and none below it, every other row as it was before, and
      dropped is the number of rows gone. */
  ghost predicate WithoutSubtree(before: Catalog, after: Catalog, root: string, dropped: nat) {
    && (forall p :: p in after <==> p in before && p != root && !(root + "$" <= p))
    && (forall p | p in after :: after[p] == before[p])
    && dropped == |set p | p in before && (p == root || root + "$" <= p)|
  }

  /** A vanished root takes its subtree's rows along, whatever their stamps and the job's depth limit. */
  lemma MissingRoot(n: Names, c: Catalog, job: Job)
    requires job.rootPath != "" && PlainText(job.rootPath)
    ensures WithoutSubtree(c, Scanned(n, c, job, Missing), job.rootPath, ScanCounters(n, c, job, Missing).deindexed)
    ensures ScanCounters(n, c, job, Missing).(deindexed := 0) == Counters(0, 0, 0, 0, 0, 0, 0)
  {
    var root := job.rootPath;
    forall q ensures InScope(q, root) <==> q == root || root + "$" <= q { ScopeIsSubtree(q, root); }
    assert Doomed(c, job, false) == set q | q in c && (q == root || root + "$" <= q);
  }

  /** Every file found has its row afterwards, sized as found and stamped by the job; a new row takes
      the file's name, no hits, and the requester as uploader. */
  lemma FoundRows(n: Names, c: Catalog, job: Job, root: Root, i: nat)
    requires GoodRoot(n, job, root) && !root.Missing? && i < |ScanFiles(n, job, root)|
    ensures var f, after := ScanFiles(n, job, root)[i], Scanned(n, c, job, root);
      && f.path in after && after[f.path].size == Some(f.size) && after[f.path].stamp == Some(job.id)
      && (f.path !in c ==> after[f.path] == Row(f.name, Some(f.size), 0, job.requestedBy, Some(job.id)))
      && (f.path in c ==> after[f.path] == c[f.path].(size := Some(f.size), stamp := Some(job.id)))
  {
    ScanDistinct(n, job, root);
    UpsertFile(c, ScanFiles(n, job, root), job, i);
  }

  /** The scan reconciles its subtree with the tree, for every catalog row, exactly when every row
      in the subtree that already carried the job's stamp is one of the files found. */
  lemma ReconcilesIff(n: Names, c: Catalog, job: Job, root: Root)
    requires GoodRoot(n, job, root) && !root.Missing? && Authoritative(n, job, root) && PlainText(job.rootPath)
    ensures (forall p | InSubtree(p, job.rootPath) ::
             p in Scanned(n, c, job, root) <==> HasPath(ScanFiles(n, job, root), p))
       <==> (forall p | InSubtree(p, job.rootPath) && Stamped(c, job, p) :: HasPath(ScanFiles(n, job, root), p))
  {
    forall p | InSubtree(p, job.rootPath)
      ensures p in Scanned(n, c, job, root) <==> HasPath(ScanFiles(n, job, root), p) || Stamped(c, job, p)
    {
      Reconciled(n, c, job, root, p);
    }
  }

  /** In terms of the tree: after an authoritative scan of a directory that no row was stamped for
      before, a path is in the subtree's catalog exactly when it is the path of a supported regular
      file at the end of a safe route. */
  lemma CatalogIsTree(n: Names, c: Catalog, job: Job, root: Root, p: string)
    requires GoodRoot(n, job, root) && root.Directory? && Authoritative(n, job, root) && PlainText(job.rootPath)
    requires InSubtree(p, job.rootPath) && !Stamped(c, job, p)
    ensures p in Scanned(n, c, job, root)
       <==> exists route: seq<string>, f: MediaFile ::
              f.path == p && Reached(n, root.listing, RootParts(job.rootPath), 0, None, route, f)
  {
    var parts, fs := RootParts(job.rootPath), ScanFiles(n, job, root);
    Reconciled(n, c, job, root, p);
    if HasPath(fs, p) {
      var i :| 0 <= i < |fs| && fs[i].path == p;
      assert fs[i] in fs;
      var route := FoundIsReached(n, root.listing, parts, 0, None, fs[i]);
    }
    if route: seq<string>, f: MediaFile :| f.path == p && Reached(n, root.listing, parts, 0, None, route, f) {
      ReachedIsFound(n, root.listing, parts, 0, None, route, f);
      var i :| 0 <= i < |fs| && fs[i] == f;
      assert HasPath(fs, p);
    }
  }

  lemma UpsertThenDelete(c: Catalog, fs: seq<MediaFile>, job: Job)
    requires DistinctPaths(fs)
    ensures var after := UpsertAll(c, fs, job);
      && |after| == |c| + Tally(c, fs, Indexed)
      && |DeleteScope(after, job, true)| + |Doomed(after, job, true)| == |c| + Tally(c, fs, Indexed)
      && Tally(c, fs, Indexed) + Tally(c, fs, Updated) + Tally(c, fs, Skipped) == |fs|
  {
    UpsertSize(c, fs, job);
    DeleteSize(UpsertAll(c, fs, job), job, true);
    TallyTotal(c, fs);
  }

  /** Rows are conserved: the catalog's size moves by the rows inserted and the rows deleted, and
      every file discovered was processed and counted once. */
  lemma RowsConserved(n: Names, c: Catalog, job: Job, root: Root)
    requires GoodRoot(n, job, root)
    ensures var k := ScanCounters(n, c, job, root);
      && |Scanned(n, c, job, root)| + k.deindexed == |c| + k.indexed
      && k.processed == k.discovered == k.indexed + k.updated + k.skipped
  {
    if root.Missing? {
      DeleteSize(c, job, false);
    } else {
      ScanDistinct(n, job, root);
      UpsertThenDelete(c, ScanFiles(n, job, root), job);
    }
  }

  lemma UpsertedEarly(c: Catalog, fs: seq<MediaFile>, k: nat, job: Job, i: nat)
    requires DistinctPaths(fs) && k <= |fs| && i < |fs|
    ensures Upserted(UpsertAll(c, fs[..k], job), fs[i], job) == Upserted(c, fs[i], job)
  {
    if i < k {
      UpsertFile(c, fs[..k], job, i);
    } else {
      UpsertElsewhere(c, fs[..k], job, fs[i].path);
    }
  }

  /** Upserting some of the files early does not change what upserting all of them leaves. */
  lemma UpsertAgain(c: Catalog, fs: seq<MediaFile>, k: nat, job: Job)
    requires DistinctPaths(fs) && k <= |fs|
    ensures UpsertAll(UpsertAll(c, fs[..k], job), fs, job) == UpsertAll(c, fs, job)
  {
    var d := UpsertAll(c, fs[..k], job);
    var once, twice := UpsertAll(c, fs, job), UpsertAll(d, fs, job);
    forall p ensures (p in once <==> p in twice) && (p in once ==> once[p] == twice[p]) {
      if HasPath(fs, p) {
        var i :| 0 <= i < |fs| && fs[i].path == p;
        UpsertFile(c, fs, job, i);
        UpsertFile(d, fs, job, i);
        UpsertedEarly(c, fs, k, job, i);
      } else {
        assert !HasPath(fs[..k], p) by { assert forall i | 0 <= i < k :: fs[..k][i] == fs[i]; }
        UpsertElsewhere(c, fs, job, p);
        UpsertElsewhere(c, fs[..k], job, p);
        UpsertElsewhere(d, fs, job, p);
      }
    }
  }

  /** A scan that stopped after any of its files and was started again by another worker ends with
      the same catalog as one that never stopped. */
  lemma ResumedScan(n: Names, c: Catalog, job: Job, root: Root, k: nat)
    requires GoodRoot(n, job, root) && !root.Missing? && k <= |ScanFiles(n, job, root)|
    ensures Scanned(n, UpsertAll(c, ScanFiles(n, job, root)[..k], job), job, root) == Scanned(n, c, job, root)
  {
    ScanDistinct(n, job, root);
    UpsertAgain(c, ScanFiles(n, job, root), k, job);
  }

  lemma {:induction false} TallyNone(c: Catalog, fs: seq<MediaFile>, change: Change)
    requires forall i | 0 <= i < |fs| :: Classify(c, fs[i]) != change
    ensures Tally(c, fs, change) == 0
  {
    if fs != [] { TallyNone(c, fs[..|fs| - 1], change); }
  }

  /** Scanning an unchanged tree again, under a new job, inserts, updates and deletes nothing. */
  lemma RescanChangesNothing(n: Names, c: Catalog, job: Job, again: Job, root: Root)
    requires GoodRoot(n, job, root) && !root.Missing? && Authoritative(n, job, root) && PlainText(job.rootPath)
    requires again.rootPath == job.rootPath && again.maxDepth == job.maxDepth
    requires forall p | InSubtree(p, job.rootPath) && Stamped(c, job, p) :: HasPath(ScanFiles(n, job, root), p)
    ensures var k := ScanCounters(n, Scanned(n, c, job, root), again, root);
      k.indexed == 0 && k.updated == 0 && k.deindexed == 0 && k.skipped == |ScanFiles(n, job, root)|
  {
    var fs, once := ScanFiles(n, job, root), Scanned(n, c, job, root);
    ScanDistinct(n, job, root);
    UpsertRows(c, fs, job);
    forall i | 0 <= i < |fs| ensures Classify(once, fs[i]) == Skipped {
      assert Upserted(c, fs[i], job).stamp == Some(job.id);
    }
    TallyNone(once, fs, Indexed);
    TallyNone(once, fs, Updated);
    TallyTotal(once, fs);
    NothingDoomed(n, c, job, again, root);
  }

  /** Row by row, the second scan leaves what the first left, but for the stamps of the files found. */
  lemma RescanKeepsRows(n: Names, c: Catalog, job: Job, again: Job, root: Root, p: string)
    requires GoodRoot(n, job, root) && !root.Missing? && Authoritative(n, job, root) && PlainText(job.rootPath)
    requires again.rootPath == job.rootPath && again.maxDepth == job.maxDepth
    requires forall p | InSubtree(p, job.rootPath) && Stamped(c, job, p) :: HasPath(ScanFiles(n, job, root), p)
    ensures var once, fs := Scanned(n, c, job, root), ScanFiles(n, job, root);
      var twice := Scanned(n, once, again, root);
      && (p in twice <==> p in once)
      && (p in once ==> twice[p] == if HasPath(fs, p) then once[p].(stamp := Some(again.id)) else once[p])
  {
    var once, fs := Scanned(n, c, job, root), ScanFiles(n, job, root);
    ScanDistinct(n, job, root);
    NothingDoomed(n, c, job, again, root);
    assert Scanned(n, once, again, root) == UpsertAll(once, fs, again);
    if HasPath(fs, p) {
      var i :| 0 <= i < |fs| && fs[i].path == p;
      FoundRows(n, c, job, root, i);
      UpsertFile(once, fs, again, i);
    } else {
      UpsertElsewhere(once, fs, again, p);
    }
  }

  lemma NothingDoomed(n: Names, c: Catalog, job: Job, again: Job, root: Root)
    requires GoodRoot(n, job, root) && !root.Missing? && Authoritative(n, job, root) && PlainText(job.rootPath)
    requires again.rootPath == job.rootPath && again.maxDepth == job.maxDepth
    requires forall p | InSubtree(p, job.rootPath) && Stamped(c, job, p) :: HasPath(ScanFiles(n, job, root), p)
    ensures Doomed(UpsertAll(Scanned(n, c, job, root), ScanFiles(n, job, root), again), again, true) == {}
  {
    var fs, once := ScanFiles(n, job, root), Scanned(n, c, job, root);
    var twice := UpsertAll(once, fs, again);
    ScanDistinct(n, job, root);
    UpsertRows(once, fs, again);
    ReconcilesIff(n, c, job, root);
    forall p | p in twice && InScope(p, job.rootPath) ensures twice[p].stamp == Some(again.id) {
      ScopeIsSubtree(p, job.rootPath);
      assert HasPath(fs, p);
      var i :| 0 <= i < |fs| && fs[i].path == p;
      assert twice[p] == Upserted(once, fs[i], again);
    }
  }

  /** A row stamped by the job, as an interrupted scan leaves it, survives the restarted scan of a tree
      its file has meanwhile vanished from. */
  lemma VanishedFileStays(n: Names)
    ensures var job := Job(7, "", None, None);
      var files := [MediaFile("gone.png", "gone.png", 1)];
      var after := Scanned(n, UpsertAll(map[], files, job), job, Directory(true, End));
      "gone.png" in after && !HasPath(ScanFiles(n, job, Directory(true, End)), "gone.png")
  {
    var job := Job(7, "", None, None);
    var files := [MediaFile("gone.png", "gone.png", 1)];
    var root := Directory(true, End);
    var interrupted := UpsertAll(map[], files, job);
    UpsertFile(map[], files, job, 0);
    assert ScanFiles(n, job, root) == [] && Authoritative(n, job, root);
    assert "gone.png" !in Doomed(interrupted, job, true);
  }

  /** A root with wildcards deletes outside its subtree. */
  lemma WildcardRootOverreaches(n: Names)
    requires SafePart(n, "a_b")
    ensures var job := Job(7, "a_b", None, None);
      var c := map["axb$c.png" := Row("c.png", Some(1), 5, None, None)];
      !InSubtree("axb$c.png", "a_b") && Scanned(n, c, job, Directory(true, End)) == map[]
  {
    var job := Job(7, "a_b", None, None);
    var c := map["axb$c.png" := Row("c.png", Some(1), 5, None, None)];
    LikeSteps();
    assert "a_b" + "$%" == "a_b$%";
    assert InScope("axb$c.png", "a_b");
    var root := Directory(true, End);
    assert ScanFiles(n, job, root) == [] && Authoritative(n, job, root);
    assert Scanned(n, c, job, root) == DeleteScope(c, job, true);
    assert "axb$c.png" in Doomed(c, job, true);
    assert ("a_b" + "$")[1] == '_' && "axb$c.png"[1] == 'x';
  }

  lemma LikeSteps()
    ensures Like("axb$c.png", "a_b$%")
  {
    LikeAnything("c.png");
    assert "a_b$%"[1..] == "_b$%" && "_b$%"[1..] == "b$%" && "b$%"[1..] == "$%" && "$%"[1..] == "%";
    assert "axb$c.png"[1..] == "xb$c.png" && "xb$c.png"[1..] == "b$c.png" && "b$c.png"[1..] == "$c.png"
      && "$c.png"[1..] == "c.png";
    assert Like("$c.png", "$%");
    assert Like("b$c.png", "b$%");
    assert Like("xb$c.png", "_b$%");
  }
}
