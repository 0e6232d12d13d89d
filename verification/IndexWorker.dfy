/** The index worker's scan of one claimed job, batch by batch. */
module IndexWorker {
  import opened Basics
  import opened FileTree
  import opened IndexCatalog
  import opened LikePatterns

  /** image.name is varchar(200). */
  const MAX_NAME: nat := 200

  /** How the job row stands when the worker touches it. */
  datatype Standing = Mine | Reclaimed | Withdrawn

  datatype Status = Succeeded | Failed(code: string) | Cancelled

  datatype Outcome = Outcome(status: Status, counters: Counters)

  ghost predicate Fit(fs: seq<MediaFile>) {
    forall f | f in fs :: |f.name| <= 200
  }

  /** The paths of a batch's videos, in order. */
  function Videos(n: Names, fs: seq<MediaFile>): seq<string> {
    if fs == [] then []
    else
      var f := fs[|fs| - 1];
      Videos(n, fs[..|fs| - 1]) + if IsVideo(n, f.name) then [f.path] else []
  }

  lemma VideosPrefix(n: Names, fs: seq<MediaFile>, i: nat)
    requires i < |fs|
    ensures Videos(n, fs[..i + 1]) == Videos(n, fs[..i]) + if IsVideo(n, fs[i].name) then [fs[i].path] else []
    ensures |Videos(n, fs[..i + 1])| <= |Videos(n, fs)| && Videos(n, fs[..i + 1]) <= Videos(n, fs)
    decreases |fs| - i
  {
    assert fs[..i + 1][..i] == fs[..i];
    if i + 1 == |fs| {
      assert fs[..i + 1] == fs;
    } else {
      VideosPrefix(n, fs, i + 1);
    }
  }

  lemma VideosLast(n: Names, fs: seq<MediaFile>, f: MediaFile)
    ensures Videos(n, fs + [f]) == Videos(n, fs) + if IsVideo(n, f.name) then [f.path] else []
  {
    assert (fs + [f])[..|fs|] == fs;
  }

  lemma {:induction false} VideosAppend(n: Names, a: seq<MediaFile>, b: seq<MediaFile>)
    ensures Videos(n, a + b) == Videos(n, a) + Videos(n, b)
  {
    if b == [] {
      assert a + b == a;
    } else {
      var front, last := b[..|b| - 1], b[|b| - 1];
      assert b == front + [last] && a + b == (a + front) + [last];
      VideosAppend(n, a, front);
      VideosLast(n, a + front, last);
      VideosLast(n, front, last);
    }
  }

  /** The counters after a batch is classified against the rows of a catalog. */
  function WithBatch(counts: Counters, c: Catalog, batch: seq<MediaFile>): Counters {
    counts.(indexed := counts.indexed + Tally(c, batch, Indexed), updated := counts.updated + Tally(c, batch, Updated),
            skipped := counts.skipped + Tally(c, batch, Skipped))
  }

  /** The counters of a scan that has found some files and written the first done of them. */
  function SoFar(c: Catalog, found: seq<MediaFile>, done: nat, errors: nat): Counters
    requires done <= |found|
  {
    Counters(|found|, done, Tally(c, found[..done], Indexed), Tally(c, found[..done], Updated),
             Tally(c, found[..done], Skipped), errors, 0)
  }

  class Scan {
    const names: Names
    const job: Job
    const batchSize: int
    /** The job row's standing at each successive contact with the database. */
    const standing: nat -> Standing
    var contacts: nat
    var catalog: Catalog
    var files: seq<MediaFile>
    var counts: Counters
    var complete: bool
    /** The videos a thumbnail was asked for. */
    var thumbnails: seq<string>
    /** None until finish writes the job row. */
    var outcome: Option<Outcome>

    ghost const initial: Catalog
    ghost var found: seq<MediaFile>
    ghost var done: nat

    constructor (names: Names, job: Job, batchSize: int, standing: nat -> Standing, catalog: Catalog)
      ensures this.names == names && this.job == job
      ensures this.standing == standing && this.catalog == catalog && initial == catalog
      ensures Valid() && found == [] && counts.errors == 0 && outcome.None?
    {
      this.names, this.job, this.batchSize, this.standing := names, job, batchSize, standing;
      this.catalog, initial := catalog, catalog;
      contacts, files, found, done, thumbnails := 0, [], [], 0, [];
      counts := Counters(0, 0, 0, 0, 0, 0, 0);
      complete, outcome := true, None;
    }

    /** The catalog holds the initial rows with the first done files upserted, their names fit. */
    ghost predicate Written()
      reads this`done, this`found, this`catalog
    {
      done <= |found| && catalog == UpsertAll(initial, found[..done], job) && Fit(found[..done])
    }

    ghost predicate Counted()
      reads this`done, this`found, this`counts, this`complete
    {
      && done <= |found| && counts == SoFar(initial, found, done, counts.errors)
      && (complete <==> counts.errors == 0)
    }

    ghost predicate Valid()
      reads this`done, this`found, this`catalog, this`counts, this`complete, this`files, this`outcome, this`thumbnails
    {
      && Written() && Counted() && files == found[done..] && outcome.None?
      && thumbnails == Videos(names, found[..done])
    }

    /** Every contact from one number up to another found the job still this worker's. */
    ghost predicate Held(from: nat, to: nat) {
      forall j | from <= j < to :: standing(j) == Mine
    }

    /** How the contacts made since from decide: the work goes on while all of them find the job this worker's
        and its files fit, and stops at the first that does not, or when a name does not fit. */
    ghost predicate Decided(from: nat, stop: bool, fit: bool)
      reads this`contacts
    {
      && from <= contacts
      && (!stop ==> Held(from, contacts))
      && (stop ==>
            || (!fit && Held(from, contacts))
            || (contacts > from && Held(from, contacts - 1) && standing(contacts - 1) != Mine))
    }

    /** Less than a batch has been gathered since the last write. */
    ghost predicate Small()
      reads this`files
    {
      files == [] || |files| < batchSize
    }

    ghost predicate AlwaysMine() {
      forall k: nat :: standing(k) == Mine
    }

    /** One statement guarded by the job row's status and worker id. */
    method Contact() returns (state: Standing)
      modifies this`contacts
      ensures state == standing(old(contacts)) && contacts == old(contacts) + 1
    {
      state := standing(contacts);
      contacts := contacts + 1;
    }

    method Finish(status: Status)
      modifies this`outcome
      ensures outcome == Some(Outcome(status, counts))
    {
      outcome := Some(Outcome(status, counts));
    }

    /** Counts the batch against the rows read at its start. */
    method CountBatch()
      modifies this`counts
      ensures counts == WithBatch(old(counts), catalog, files)
    {
      var i := 0;
      while i < |files|
        invariant 0 <= i <= |files|
        invariant counts.indexed == old(counts.indexed) + Tally(catalog, files[..i], Indexed)
        invariant counts.updated == old(counts.updated) + Tally(catalog, files[..i], Updated)
        invariant counts.skipped == old(counts.skipped) + Tally(catalog, files[..i], Skipped)
        invariant counts == old(counts).(indexed := counts.indexed, updated := counts.updated,
                                         skipped := counts.skipped)
      {
        assert files[..i + 1][..i] == files[..i];
        var f := files[i];
        if f.path !in catalog {
          counts := counts.(indexed := counts.indexed + 1);
        } else if catalog[f.path].size != Some(f.size) {
          counts := counts.(updated := counts.updated + 1);
        } else {
          counts := counts.(skipped := counts.skipped + 1);
        }
        i := i + 1;
      }
      assert files[..|files|] == files;
    }

    /** The database contacts numbered from..to renewed the lease for the first videos of a batch,
        each before its thumbnail was made; unless all went well, the last was refused. */
    ghost predicate Renewals(from: nat, to: nat, videos: seq<string>, made: seq<string>, ok: bool) {
      && from <= to <= from + |videos|
      && (ok ==> to == from + |videos| && made == videos)
      && (!ok ==> to > from && standing(to - 1) != Mine && made == videos[..to - from - 1])
      && forall j | from <= j < (if ok then to else to - 1) :: standing(j) == Mine
    }

    /** A video's thumbnail is made only once the lease has been renewed for it. */
    method RenewFor(f: MediaFile) returns (ok: bool)
      modifies this`contacts, this`thumbnails
      ensures var video := IsVideo(names, f.name);
        && contacts == old(contacts) + (if video then 1 else 0)
        && ok == (video ==> standing(old(contacts)) == Mine)
        && thumbnails == old(thumbnails) + if video && ok then [f.path] else []
    {
      if !IsVideo(names, f.name) { return true; }
      var state := Contact();
      if state != Mine { return false; }
      thumbnails := thumbnails + [f.path];
      return true;
    }

    lemma RefusedAt(from: nat, made: seq<string>, videos: seq<string>)
      requires made < videos && (forall j | from <= j < from + |made| :: standing(j) == Mine)
      requires standing(from + |made|) != Mine
      ensures Renewals(from, from + |made| + 1, videos, made, false)
    {
    }

    lemma AllRenewed(from: nat, videos: seq<string>)
      requires forall j | from <= j < from + |videos| :: standing(j) == Mine
      ensures Renewals(from, from + |videos|, videos, videos, true)
    {
    }

    /** The lease is renewed before each video's thumbnail is made. */
    method RenewForVideos() returns (ok: bool)
      modifies this`contacts, this`thumbnails
      ensures old(contacts) <= contacts && |old(thumbnails)| <= |thumbnails| && old(thumbnails) <= thumbnails
      ensures Renewals(old(contacts), contacts, Videos(names, files), thumbnails[|old(thumbnails)|..], ok)
    {
      ghost var before, made := old(thumbnails), [];
      for i := 0 to |files|
        invariant made == Videos(names, files[..i]) && thumbnails == before + made
        invariant contacts == old(contacts) + |made|
        invariant forall j | old(contacts) <= j < contacts :: standing(j) == Mine
      {
        VideosPrefix(names, files, i);
        ok := RenewFor(files[i]);
        if !ok {
          assert thumbnails[|before|..] == made;
          RefusedAt(old(contacts), made, Videos(names, files));
          return;
        }
        made := Videos(names, files[..i + 1]);
      }
      assert files[..|files|] == files && thumbnails[|before|..] == made;
      AllRenewed(old(contacts), made);
      return true;
    }

    /** Counts and upserts the batch in one statement, which a name over 200 characters makes fail. */
    method WriteBatch() returns (ok: bool)
      requires Valid() && DistinctPaths(found)
      modifies this`catalog, this`counts, this`done
      ensures Written() && (ok <==> Fit(files))
      ensures ok ==> Counted() && done == |found| && counts.errors == old(counts.errors)
    {
      CountBatch();
      if exists f | f in files :: |f.name| > MAX_NAME { return false; }
      OneMoreBatch(initial, found, done, job, old(counts.errors));
      catalog := UpsertAll(catalog, files, job);
      counts := counts.(processed := counts.processed + |files|);
      done := |found|;
      assert found[..|found|] == found;
      ok := true;
    }

    /** Renewals decide as they went. */
    lemma RenewalsDecide(from: nat, videos: seq<string>, made: seq<string>, ok: bool)
      requires Renewals(from, contacts, videos, made, ok)
      ensures Decided(from, !ok, true) && (ok ==> contacts == from + |videos| && made == videos) && made <= videos
    {
    }

    lemma VideosTogether()
      requires Valid()
      ensures thumbnails + Videos(names, files) == Videos(names, found)
    {
      VideosAppend(names, found[..done], files);
      assert found[..done] + files == found;
    }

    /** Writes the batch, then renews the lease for its videos one by one, each before its thumbnail. */
    method UpsertBatch() returns (ok: bool)
      requires Valid() && DistinctPaths(found)
      modifies this`catalog, this`counts, this`contacts, this`done, this`thumbnails
      ensures Written()
      ensures ok ==> Counted() && done == |found| && counts.errors == old(counts.errors)
      ensures Decided(old(contacts), !ok, Fit(files))
      ensures !Fit(files) ==> !ok && contacts == old(contacts) && thumbnails == old(thumbnails)
      ensures ok ==> contacts == old(contacts) + |Videos(names, files)| && thumbnails == Videos(names, found)
      ensures !ok && Fit(files) ==> old(thumbnails) <= thumbnails <= Videos(names, found)
    {
      ghost var from, before := contacts, thumbnails;
      VideosTogether();
      ok := WriteBatch();
      if ok {
        ok := RenewForVideos();
        RenewalsDecide(from, Videos(names, files), thumbnails[|before|..], ok);
        assert thumbnails == before + thumbnails[|before|..];
      }
    }

    /** After a written batch nothing is left to write. */
    lemma AllWritten()
      requires Written() && Counted() && done == |found| && files == [] && outcome.None?
      requires thumbnails == Videos(names, found)
      ensures Valid()
    {
      assert found[..done] == found && found[done..] == [];
    }

    /** One contact more decides. */
    lemma OneMore(from: nat, fit: bool)
      requires from < contacts && Held(from, contacts - 1)
      ensures Decided(from, standing(contacts - 1) != Mine, fit)
    {
    }

    /** Upserts what has been gathered, if anything. */
    method WriteOut() returns (ok: bool)
      requires Valid() && DistinctPaths(found) && files != []
      modifies this`catalog, this`counts, this`contacts, this`done, this`thumbnails, this`files, this`outcome
      ensures Written()
      ensures ok ==> Valid() && files == [] && counts.errors == old(counts.errors)
      ensures !ok ==> outcome.Some? && outcome.value.status == Failed("database_error")
      ensures Decided(old(contacts), !ok, Fit(old(files)))
      ensures ok ==> contacts == old(contacts) + |Videos(names, old(files))|
    {
      ok := UpsertBatch();
      if ok {
        files := [];
        AllWritten();
      } else {
        Finish(Failed("database_error"));
      }
    }

    /** flush: upserts what has been gathered and reports progress; false stops the scan. */
    method Flush() returns (ok: bool)
      requires Valid() && DistinctPaths(found)
      modifies this`catalog, this`counts, this`contacts, this`done, this`thumbnails, this`files, this`outcome
      ensures Written()
      ensures ok ==> Valid() && files == [] && counts.errors == old(counts.errors)
      ensures !ok ==> outcome.None? || outcome.value.status == Failed("database_error")
      ensures Decided(old(contacts), !ok, Fit(old(files)))
      ensures !ok && !Fit(old(files)) ==> outcome.Some?
      ensures ok ==> contacts == old(contacts) + if old(files) == [] then 0 else |Videos(names, old(files))| + 1
    {
      if files == [] { return true; }
      ghost var from, fit := contacts, Fit(files);
      ok := WriteOut();
      if ok {
        var state := Contact();
        ok := state == Mine;
        OneMore(from, fit);
      }
    }

    method AddError()
      requires Valid()
      modifies this`counts, this`complete
      ensures Valid() && counts.errors == old(counts.errors) + 1
    {
      counts, complete := counts.(errors := counts.errors + 1), false;
    }

    method TakeNext(f: MediaFile)
      requires Valid()
      modifies this`counts, this`files, this`found
      ensures Valid() && counts.errors == old(counts.errors)
      ensures found == old(found) + [f] && files == old(files) + [f]
    {
      counts := counts.(discovered := counts.discovered + 1);
      found := found + [f];
      files := files + [f];
      assert found[..done] == old(found)[..done];
      assert found[done..] == files;
    }

    /** A file is gathered, and a full batch is written. */
    method AddFile(f: MediaFile) returns (stop: bool)
      requires Valid() && Small() && DistinctPaths(found + [f])
      modifies this`catalog, this`counts, this`contacts, this`done, this`thumbnails, this`files, this`outcome,
        this`found
      ensures found == old(found) + [f] && Written()
      ensures !stop ==> Valid() && Small() && counts.errors == old(counts.errors)
      ensures stop ==> outcome.None? || outcome.value.status == Failed("database_error")
      ensures Decided(old(contacts), stop, Fit(found))
    {
      TakeNext(f);
      stop := false;
      if |files| >= batchSize {
        assert Fit(found) ==> Fit(files) by { assert forall f | f in files :: f in found; }
        var ok := Flush();
        stop := !ok;
      }
    }

    /** The walk below one directory; stop is errStop. */
    method WalkListing(l: Listing, prefix: seq<string>, depth: int) returns (stop: bool)
      requires Valid() && Small() && DistinctPaths(found + Found(names, l, prefix, depth, job.maxDepth))
      modifies this`catalog, this`counts, this`contacts, this`done, this`thumbnails, this`files, this`outcome,
        this`found, this`complete
      ensures Written() && found <= old(found) + Found(names, l, prefix, depth, job.maxDepth)
      ensures !stop ==> Valid() && Small() && found == old(found) + Found(names, l, prefix, depth, job.maxDepth)
                        && counts.errors == old(counts.errors) + Errors(names, l, prefix, depth, job.maxDepth)
      ensures stop ==> outcome.None? || outcome.value.status == Failed("database_error")
      ensures Decided(old(contacts), stop, Fit(old(found) + Found(names, l, prefix, depth, job.maxDepth)))
      decreases l, 0
    {
      match l
      case End =>
        stop := false;
      case More(name, entry, rest) =>
        ghost var here, after := FoundAt(names, name, entry, prefix, depth, job.maxDepth),
          Found(names, rest, prefix, depth, job.maxDepth);
        assert found + (here + after) == found + here + after;
        assert DistinctPaths(found + here) by { Prefixed(found + here, after); }
        stop := VisitEntry(name, entry, prefix, depth);
        if !stop {
          stop := WalkListing(rest, prefix, depth);
        }
    }

    /** The walk's callback for one entry, and the walk below it. */
    method VisitEntry(name: string, entry: Entry, prefix: seq<string>, depth: int) returns (stop: bool)
      requires Valid() && Small() && DistinctPaths(found + FoundAt(names, name, entry, prefix, depth, job.maxDepth))
      modifies this`catalog, this`counts, this`contacts, this`done, this`thumbnails, this`files, this`outcome,
        this`found, this`complete
      ensures Written() && found <= old(found) + FoundAt(names, name, entry, prefix, depth, job.maxDepth)
      ensures !stop ==> Valid() && Small()
                        && found == old(found) + FoundAt(names, name, entry, prefix, depth, job.maxDepth)
                        && counts.errors == old(counts.errors)
                          + ErrorsAt(names, name, entry, prefix, depth, job.maxDepth)
      ensures stop ==> outcome.None? || outcome.value.status == Failed("database_error")
      ensures Decided(old(contacts), stop, Fit(old(found) + FoundAt(names, name, entry, prefix, depth, job.maxDepth)))
      decreases entry, 1
    {
      var parts := prefix + [name];
      stop := false;
      if !SafeParts(names, parts) || entry.Link? {
        return;
      }
      match entry
      case Dir(readable, l) =>
        if job.maxDepth.Some? && depth >= job.maxDepth.value {
          return;
        }
        if !readable {
          AddError();
          return;
        }
        stop := WalkListing(l, parts, depth + 1);
      case File(size, statOk) =>
        if !Supported(names, name) {
          return;
        }
        if !statOk {
          AddError();
          return;
        }
        stop := AddFile(MediaFile(Join("$", parts), name, size));
      case _ =>
    }

    /** A root that is a single file: kept for the last flush, whatever the batch size. */
    method TakeFile(f: MediaFile)
      requires Valid() && found == []
      modifies this`counts, this`files, this`found
      ensures Valid() && found == [f] && counts.errors == old(counts.errors)
    {
      counts := counts.(discovered := 1);
      files := files + [f];
      found := [f];
      assert found[..done] == [] && found[done..] == files;
    }

    method GatherDirectory(l: Listing) returns (stop: bool)
      requires Valid() && found == []
      requires DistinctPaths(Found(names, l, RootParts(job.rootPath), 0, job.maxDepth))
      modifies this`catalog, this`counts, this`contacts, this`done, this`thumbnails, this`files, this`outcome,
        this`found, this`complete
      ensures Written() && found <= Found(names, l, RootParts(job.rootPath), 0, job.maxDepth)
      ensures !stop ==> Valid() && found == Found(names, l, RootParts(job.rootPath), 0, job.maxDepth)
      ensures !stop ==>
        counts.errors == old(counts.errors) + Errors(names, l, RootParts(job.rootPath), 0, job.maxDepth)
      ensures stop ==> outcome.None? || outcome.value.status == Failed("database_error")
      ensures Decided(old(contacts), stop, Fit(Found(names, l, RootParts(job.rootPath), 0, job.maxDepth)))
    {
      ghost var all := Found(names, l, RootParts(job.rootPath), 0, job.maxDepth);
      assert [] + all == all;
      stop := WalkListing(l, RootParts(job.rootPath), 0);
    }

    /** A root that is not walked: a supported file is gathered, anything else is an error. */
    method GatherOne(root: Root)
      requires Valid() && found == [] && counts.errors == 0
      requires (root.Directory? && !root.readable) || root.Regular? || root.Odd?
      modifies this`counts, this`files, this`found, this`complete
      ensures Valid() && found == ScanFiles(names, job, root) && counts.errors == ScanErrors(names, job, root)
    {
      if root.Regular? && Supported(names, root.base) {
        TakeFile(MediaFile(job.rootPath, root.base, root.size));
      } else {
        AddError();
      }
    }

    /** The files of the job's root, all but the last incomplete batch written. */
    method GatherRoot(root: Root) returns (stop: bool)
      requires Valid() && found == [] && counts.errors == 0 && GoodRoot(names, job, root)
      requires root.Directory? || root.Regular? || root.Odd?
      modifies this`catalog, this`counts, this`contacts, this`done, this`thumbnails, this`files, this`outcome,
        this`found, this`complete
      ensures Written() && found <= ScanFiles(names, job, root)
      ensures !stop ==> Valid() && found == ScanFiles(names, job, root) && counts.errors == ScanErrors(names, job, root)
      ensures stop ==> outcome.None? || outcome.value.status == Failed("database_error")
      ensures Decided(old(contacts), stop, Fit(ScanFiles(names, job, root)))
    {
      if root.Directory? && root.readable {
        ScanDistinct(names, job, root);
        stop := GatherDirectory(root.listing);
      } else {
        GatherOne(root);
        stop := false;
      }
    }

    /** The scan itself: gathers and writes every file, or stops. */
    method Gather(root: Root) returns (stop: bool)
      requires Valid() && found == [] && counts.errors == 0 && GoodRoot(names, job, root)
      requires root.Directory? || root.Regular? || root.Odd?
      modifies this`catalog, this`counts, this`contacts, this`done, this`thumbnails, this`files, this`outcome,
        this`found, this`complete
      ensures Written() && found <= ScanFiles(names, job, root)
      ensures !stop ==> Valid() && files == [] && found == ScanFiles(names, job, root)
      ensures !stop ==> counts.errors == ScanErrors(names, job, root)
      ensures stop ==> outcome.None? || outcome.value.status == Failed("database_error")
      ensures Decided(old(contacts), stop, Fit(ScanFiles(names, job, root)))
    {
      stop := GatherRoot(root);
      if !stop {
        ScanDistinct(names, job, root);
        assert forall f | f in files :: f in found;
        var ok := Flush();
        stop := !ok;
      }
    }

    /** Some prefix of the files has been upserted into the initial catalog, and nothing deleted. */
    ghost predicate Partial(files: seq<MediaFile>)
      reads this`catalog
    {
      exists k: nat | k <= |files| :: catalog == UpsertAll(initial, files[..k], job)
    }

    ghost predicate Finished(root: Root)
      reads this`outcome, this`catalog
    {
      && outcome.Some? && outcome.value.status == Succeeded
      && GoodRoot(names, job, root) && Fit(ScanFiles(names, job, root))
      && catalog == Scanned(names, initial, job, root)
      && outcome.value.counters == ScanCounters(names, initial, job, root)
    }

    /** The job succeeded on a missing root: the rows of its subtree are gone, and counted. */
    ghost predicate Vanished()
      reads this
    {
      && outcome.Some? && outcome.value.status == Succeeded
      && catalog == Scanned(names, initial, job, Missing)
      && outcome.value.counters == ScanCounters(names, initial, job, Missing)
      && (PlainText(job.rootPath) ==>
            WithoutSubtree(initial, catalog, job.rootPath, outcome.value.counters.deindexed))
    }

    method DeindexMissingScope()
      requires Valid() && found == [] && counts == Counters(0, 0, 0, 0, 0, 0, 0) && job.rootPath != ""
      modifies this`catalog, this`counts
      ensures catalog == Scanned(names, initial, job, Missing) && counts == ScanCounters(names, initial, job, Missing)
      ensures PlainText(job.rootPath) ==> WithoutSubtree(initial, catalog, job.rootPath, counts.deindexed)
    {
      counts := counts.(deindexed := |Doomed(catalog, job, false)|);
      catalog := DeleteScope(catalog, job, false);
      if PlainText(job.rootPath) {
        MissingRoot(names, initial, job);
      }
    }

    /** How a scan ended, by the contacts made since from. It ran to its end exactly when all but the last found
        the job this worker's; then it is cancelled if the last one found it withdrawn, and has otherwise
        succeeded and made the thumbnails of all its videos. Else it stopped, at a name that does not fit or at
        the first contact that found the job no longer this worker's. */
    ghost predicate Ended(from: nat, files: seq<MediaFile>)
      reads this`outcome, this`contacts, this`thumbnails
    {
      if outcome.Some? && (outcome.value.status == Succeeded || outcome.value.status == Cancelled) then
        && contacts > from && Held(from, contacts - 1)
        && (outcome.value.status == Cancelled <==> standing(contacts - 1) == Withdrawn)
        && thumbnails == Videos(names, files)
      else Decided(from, true, Fit(files))
    }

    /** process: what an interrupted or finished scan leaves of the catalog. */
    method Process(root: Root)
      requires Valid() && found == [] && counts == Counters(0, 0, 0, 0, 0, 0, 0)
      requires root.Directory? ==> Proper(root.listing)
      modifies this
      ensures if outcome.Some? && outcome.value.status == Succeeded then Finished(root)
        else Partial(ScanFiles(names, job, root))
      ensures GoodRoot(names, job, root) && !root.Missing? ==>
        Ended(old(contacts), ScanFiles(names, job, root))
      ensures GoodRoot(names, job, root) && AlwaysMine() && Fit(ScanFiles(names, job, root)) ==> Finished(root)
      ensures root.Missing? && SafeParts(names, RootParts(job.rootPath)) && job.rootPath != "" ==> Vanished()
      ensures !SafeParts(names, RootParts(job.rootPath)) || root.LinkRoot? ==>
        catalog == initial && outcome == Some(Outcome(Failed("invalid_root"), Counters(0, 0, 0, 0, 0, 0, 0)))
      ensures SafeParts(names, RootParts(job.rootPath)) && (root.Unavailable? || (root.Missing? && job.rootPath == ""))
        ==> catalog == initial
            && outcome == Some(Outcome(Failed("media_root_unavailable"), Counters(0, 0, 0, 0, 0, 1, 0)))
    {
      assert ScanFiles(names, job, root)[..0] == [] == found[..0];
      PartialAt(ScanFiles(names, job, root), 0);
      if !SafeParts(names, RootParts(job.rootPath)) {
        Finish(Failed("invalid_root"));
        return;
      }
      match root
      case Missing =>
        if job.rootPath != "" {
          DeindexMissingScope();
          Finish(Succeeded);
        } else {
          counts := counts.(errors := 1);
          Finish(Failed("media_root_unavailable"));
        }
      case Unavailable =>
        counts := counts.(errors := 1);
        Finish(Failed("media_root_unavailable"));
      case LinkRoot =>
        Finish(Failed("invalid_root"));
      case _ =>
        GatherAndSettle(root);
    }

    method GatherAndSettle(root: Root)
      requires Valid() && found == [] && counts.errors == 0 && GoodRoot(names, job, root)
      requires root.Directory? || root.Regular? || root.Odd?
      modifies this
      ensures if outcome.Some? && outcome.value.status == Succeeded then Finished(root)
        else Partial(ScanFiles(names, job, root))
      ensures Ended(old(contacts), ScanFiles(names, job, root))
    {
      ghost var all, from := ScanFiles(names, job, root), contacts;
      var stop := Gather(root);
      assert done <= |all| && found[..done] == all[..done];
      PartialAt(all, done);
      if !stop {
        AllGathered();
        Settle(root);
        EndedWith(from, all);
      }
    }

    lemma PartialAt(files: seq<MediaFile>, k: nat)
      requires k <= |files| && catalog == UpsertAll(initial, files[..k], job)
      ensures Partial(files)
    {
    }

    /** The deletion, when the scan is authoritative. */
    method Reconcile(root: Root)
      requires Written() && Counted() && done == |found| && GoodRoot(names, job, root) && !root.Missing?
      requires found == ScanFiles(names, job, root) && counts.errors == ScanErrors(names, job, root)
      modifies this`catalog, this`counts
      ensures catalog == Scanned(names, initial, job, root) && counts == ScanCounters(names, initial, job, root)
    {
      assert found[..done] == found;
      if complete && job.maxDepth.None? {
        counts := counts.(deindexed := |Doomed(catalog, job, true)|);
        catalog := DeleteScope(catalog, job, true);
      }
    }

    /** The deletion, then the job is done. */
    method Succeed(root: Root)
      requires Written() && Counted() && done == |found| && GoodRoot(names, job, root) && !root.Missing?
      requires found == ScanFiles(names, job, root) && counts.errors == ScanErrors(names, job, root)
      modifies this`catalog, this`counts, this`outcome
      ensures outcome.Some? && outcome.value.status == Succeeded && Finished(root)
    {
      assert found[..done] == found;
      Reconcile(root);
      Finish(Succeeded);
    }

    /** After the last file: the cancellation check and, when the scan is authoritative, the deletion. */
    method Settle(root: Root)
      requires Written() && Counted() && done == |found| && GoodRoot(names, job, root) && !root.Missing?
      requires found == ScanFiles(names, job, root) && counts.errors == ScanErrors(names, job, root)
      modifies this`contacts, this`catalog, this`counts, this`outcome
      ensures contacts == old(contacts) + 1 && outcome.Some?
      ensures if standing(old(contacts)) == Withdrawn then outcome.value.status == Cancelled && catalog == old(catalog)
        else outcome.value.status == Succeeded && Finished(root)
    {
      var state := Contact();
      if state == Withdrawn {
        Finish(Cancelled);
      } else {
        Succeed(root);
      }
    }

    lemma EndedWith(from: nat, files: seq<MediaFile>)
      requires contacts > from && Held(from, contacts - 1) && thumbnails == Videos(names, files) && outcome.Some?
      requires outcome.value.status == if standing(contacts - 1) == Withdrawn then Cancelled else Succeeded
      ensures Ended(from, files)
    {
    }

    lemma AllGathered()
      requires Valid() && files == []
      ensures done == |found| && found[..done] == found && thumbnails == Videos(names, found)
    {
    }
  }

  /** Writing the gathered files takes the catalog and the counters to those of all files so far. */
  lemma OneMoreBatch(c: Catalog, found: seq<MediaFile>, done: nat, job: Job, errors: nat)
    requires done <= |found| && DistinctPaths(found)
    ensures var d, batch := UpsertAll(c, found[..done], job), found[done..];
      && UpsertAll(d, batch, job) == UpsertAll(c, found, job)
      && WithBatch(SoFar(c, found, done, errors), d, batch).(processed := |found|) == SoFar(c, found, |found|, errors)
  {
    assert found[..done] + found[done..] == found == found[..|found|];
    UpsertAppend(c, found[..done], found[done..], job);
    BatchTally(c, found[..done], found[done..], job, Indexed);
    BatchTally(c, found[..done], found[done..], job, Updated);
    BatchTally(c, found[..done], found[done..], job, Skipped);
  }

  lemma Prefixed(a: seq<MediaFile>, b: seq<MediaFile>)
    requires DistinctPaths(a + b)
    ensures DistinctPaths(a)
  {
    assert forall i | 0 <= i < |a| :: (a + b)[i] == a[i];
  }
}
