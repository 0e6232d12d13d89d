/** Annotation transactions and the triggers that queue changed images. */
module Triggers {
  import opened Basics
  import opened Tables

  // ----- mark_image_embedding_dirty -----

  function NewJob(priority: int, txid: nat, now: int): Job {
    Job(1, 0, Pending, txid, priority, now, None, None, 0, false)
  }

  /** The row after one or more marks by transaction txid. */
  function Marked(was: Option<Job>, txid: nat, now: int): Job {
    match was
    case None => NewJob(1, txid, now)
    case Some(j) =>
      if j.txid == txid then j
      else Job(j.revision + 1, j.completed, Pending, txid, 1, now, None, None, 0, false)
  }

  /** Marks every target that still exists. */
  function MarkAll(db: Db, targets: set<int>, txid: nat): Db {
    db.(jobs := map i | i in db.jobs.Keys + targets * db.images ::
      if i in targets && i in db.images then Marked(JobOf(db, i), txid, db.now) else db.jobs[i])
  }

  // ----- Row writes with their triggers -----

  datatype Write =
    | InsertMessage(id: int, image: int, text: string, date: int)
    | UpdateMessage(id: int, image: int, text: string, date: int)
    | DeleteMessage(id: int)
    | InsertLink(id: int, image: int, tag: int)
    | UpdateLink(id: int, image: int, tag: int)
    | DeleteLink(id: int)
    | InsertTag(id: int, name: string)
    | RenameTag(id: int, name: string)
    | DeleteTag(id: int)
    | InsertImage
    | DeleteImage(id: int)

  function LinkedImages(db: Db, tag: int): set<int> {
    set l | l in db.links && db.links[l].tag == tag :: db.links[l].image
  }

  predicate NameTaken(db: Db, id: int, name: string) {
    exists t :: t in db.tags && t != id && db.tags[t] == name
  }

  predicate PairTaken(db: Db, id: int, image: int, tag: int) {
    exists l :: l in db.links && l != id && db.links[l] == Link(image, tag)
  }

  /** A constraint rejects the write, which aborts its transaction. */
  predicate Aborts(db: Db, w: Write) {
    match w
    case InsertMessage(id, image, _, _) => id in db.messages || image !in db.images
    case UpdateMessage(id, image, _, _) => id in db.messages && image !in db.images
    case InsertLink(id, image, tag) =>
      id in db.links || image !in db.images || tag !in db.tags || PairTaken(db, id, image, tag)
    case UpdateLink(id, image, tag) =>
      id in db.links && (image !in db.images || tag !in db.tags || PairTaken(db, id, image, tag))
    case InsertTag(id, name) => id in db.tags || NameTaken(db, id, name)
    case RenameTag(id, name) => id in db.tags && NameTaken(db, id, name)
    case _ => false
  }

  /** The write itself, with the cascades of its foreign keys. */
  function Written(db: Db, w: Write): Db {
    match w
    case InsertMessage(id, image, text, date) => db.(messages := db.messages[id := Message(image, text, date)])
    case UpdateMessage(id, image, text, date) =>
      if id in db.messages then db.(messages := db.messages[id := Message(image, text, date)]) else db
    case DeleteMessage(id) => db.(messages := db.messages - {id})
    case InsertLink(id, image, tag) => db.(links := db.links[id := Link(image, tag)])
    case UpdateLink(id, image, tag) => if id in db.links then db.(links := db.links[id := Link(image, tag)]) else db
    case DeleteLink(id) => db.(links := db.links - {id})
    case InsertTag(id, name) => db.(tags := db.tags[id := name])
    case RenameTag(id, name) => if id in db.tags then db.(tags := db.tags[id := name]) else db
    case DeleteTag(id) =>
      db.(tags := db.tags - {id}, links := map l | l in db.links && db.links[l].tag != id :: db.links[l])
    case InsertImage => db.(images := db.images + {db.nextImage}, nextImage := db.nextImage + 1)
    case DeleteImage(id) =>
      db.(images := db.images - {id},
          messages := map m | m in db.messages && db.messages[m].image != id :: db.messages[m],
          links := map l | l in db.links && db.links[l].image != id :: db.links[l],
          jobs := db.jobs - {id}, embeddings := db.embeddings - {id}, terms := db.terms - {id})
  }

  /** The images its triggers mark, read before the write. */
  function Targets(db: Db, w: Write): set<int> {
    match w
    case InsertMessage(_, image, _, _) => {image}
    case UpdateMessage(id, image, text, _) =>
      if id !in db.messages || (db.messages[id].image == image && db.messages[id].text == text) then {}
      else {image, db.messages[id].image}
    case DeleteMessage(id) => if id in db.messages then {db.messages[id].image} else {}
    case InsertLink(_, image, _) => {image}
    case UpdateLink(id, image, tag) =>
      if id !in db.links || db.links[id] == Link(image, tag) then {} else {image, db.links[id].image}
    case DeleteLink(id) => if id in db.links then {db.links[id].image} else {}
    case InsertTag(_, _) => {}
    case RenameTag(id, name) => if id !in db.tags || db.tags[id] == name then {} else LinkedImages(db, id)
    case DeleteTag(id) => if id !in db.tags then {} else LinkedImages(db, id)
    case InsertImage => {}
    case DeleteImage(id) => {id}
  }

  /** One row write and the triggers it fires; None when a constraint aborts the transaction. */
  function Apply(db: Db, txid: nat, w: Write): Option<Db> {
    if Aborts(db, w) then None else Some(MarkAll(Written(db, w), Targets(db, w), txid))
  }

  function ApplyAll(db: Db, txid: nat, ws: seq<Write>): Option<Db>
    decreases |ws|
  {
    if ws == [] then Some(db)
    else match Apply(db, txid, ws[0])
      case None => None
      case Some(mid) => ApplyAll(mid, txid, ws[1..])
  }

  /** A committed or aborted transaction. */
  function Transaction(db: Db, txid: nat, ws: seq<Write>): Db {
    match ApplyAll(db, txid, ws)
    case None => db
    case Some(done) => done
  }

  // ----- A write aborts exactly when the tables it leaves would break a constraint -----

  /** Foreign keys, and unique tag names and links. */
  ghost predicate KeysHold(db: Db) {
    && (forall m | m in db.messages :: db.messages[m].image in db.images)
    && (forall l | l in db.links :: db.links[l].image in db.images && db.links[l].tag in db.tags)
    && Unique(db.tags) && Unique(db.links)
  }

  ghost predicate Unique<T(!new)>(rows: map<int, T>) {
    forall k, l | k in rows && l in rows && rows[k] == rows[l] :: k == l
  }

  lemma StillUnique<T(!new)>(rows: map<int, T>, id: int, row: T)
    requires Unique(rows)
    ensures Unique(rows[id := row]) <==> !exists k :: k in rows && k != id && rows[k] == row
  {
    var after := rows[id := row];
    if k :| k in rows && k != id && rows[k] == row { assert after[k] == after[id]; }
  }

  /** A row is inserted under an id already taken. */
  ghost predicate IdTaken(db: Db, w: Write) {
    || (w.InsertMessage? && w.id in db.messages)
    || (w.InsertLink? && w.id in db.links)
    || (w.InsertTag? && w.id in db.tags)
  }

  lemma MessageAborts(db: Db, w: Write)
    requires KeysHold(db) && !IdTaken(db, w) && (w.InsertMessage? || w.UpdateMessage? || w.DeleteMessage?)
    ensures Aborts(db, w) <==> !KeysHold(Written(db, w))
  {
    var after := Written(db, w);
    if !w.DeleteMessage? && w.id in after.messages {
      assert after.messages[w.id].image in after.images <==> !Aborts(db, w);
    }
  }

  lemma LinkAborts(db: Db, w: Write)
    requires KeysHold(db) && !IdTaken(db, w) && (w.InsertLink? || w.UpdateLink?)
    ensures Aborts(db, w) <==> !KeysHold(Written(db, w))
  {
    var after := Written(db, w);
    StillUnique(db.links, w.id, Link(w.image, w.tag));
    if w.id in after.links {
      assert after.links[w.id] == Link(w.image, w.tag);
    }
  }

  lemma TagAborts(db: Db, w: Write)
    requires KeysHold(db) && !IdTaken(db, w) && (w.InsertTag? || w.RenameTag?)
    ensures Aborts(db, w) <==> !KeysHold(Written(db, w))
  {
    StillUnique(db.tags, w.id, w.name);
  }

  /** A write aborts its transaction exactly when it takes a used id or would leave a foreign key or a unique
      name or link broken. */
  lemma AbortsIff(db: Db, w: Write)
    requires KeysHold(db)
    ensures Aborts(db, w) <==> IdTaken(db, w) || !KeysHold(Written(db, w))
  {
    if !IdTaken(db, w) {
      match w
      case InsertMessage(_, _, _, _) => MessageAborts(db, w);
      case UpdateMessage(_, _, _, _) => MessageAborts(db, w);
      case DeleteMessage(_) => MessageAborts(db, w);
      case InsertLink(_, _, _) => LinkAborts(db, w);
      case UpdateLink(_, _, _) => LinkAborts(db, w);
      case InsertTag(_, _) => TagAborts(db, w);
      case RenameTag(_, _) => TagAborts(db, w);
      case _ =>
    }
  }

  // ----- Each trigger marks exactly the images whose annotations its write changed -----

  ghost predicate Tracks(db: Db, txid: nat, after: Db, changed: bool, image: int) {
    JobOf(after, image) == if changed then Some(Marked(JobOf(db, image), txid, db.now)) else JobOf(db, image)
  }

  /** What one message, or one link, contributes to an image's facts. */
  function SaidOf(db: Db, m: int, image: int): Option<string> {
    if m in db.messages && db.messages[m].image == image then Some(db.messages[m].text) else None
  }

  function TaggedOf(db: Db, l: int, image: int): Option<string> {
    if l in db.links && db.links[l].image == image then Some(TagName(db, db.links[l].tag)) else None
  }

  lemma FactsRowwise(a: Db, b: Db, image: int)
    ensures FactsOf(a, image).comments == FactsOf(b, image).comments <==>
      (forall m :: SaidOf(a, m, image) == SaidOf(b, m, image))
    ensures FactsOf(a, image).tags == FactsOf(b, image).tags <==>
      (forall l :: TaggedOf(a, l, image) == TaggedOf(b, l, image))
  {
    SaidRowwise(a, b, image);
    TaggedRowwise(a, b, image);
  }

  lemma SaidRowwise(a: Db, b: Db, image: int)
    ensures FactsOf(a, image).comments == FactsOf(b, image).comments <==>
      (forall m :: SaidOf(a, m, image) == SaidOf(b, m, image))
  {
    var x, y := FactsOf(a, image).comments, FactsOf(b, image).comments;
    assert forall f :: f in x <==> SaidOf(a, f.0, image) == Some(f.1);
    assert forall f :: f in y <==> SaidOf(b, f.0, image) == Some(f.1);
    if x == y {
      forall m ensures SaidOf(a, m, image) == SaidOf(b, m, image) {
        if SaidOf(a, m, image).Some? { assert (m, SaidOf(a, m, image).value) in y; }
        if SaidOf(b, m, image).Some? { assert (m, SaidOf(b, m, image).value) in x; }
      }
    }
  }

  lemma TaggedRowwise(a: Db, b: Db, image: int)
    ensures FactsOf(a, image).tags == FactsOf(b, image).tags <==>
      (forall l :: TaggedOf(a, l, image) == TaggedOf(b, l, image))
  {
    var x, y := FactsOf(a, image).tags, FactsOf(b, image).tags;
    assert forall f :: f in x <==> TaggedOf(a, f.0, image) == Some(f.1);
    assert forall f :: f in y <==> TaggedOf(b, f.0, image) == Some(f.1);
    if x == y {
      forall l ensures TaggedOf(a, l, image) == TaggedOf(b, l, image) {
        if TaggedOf(a, l, image).Some? { assert (l, TaggedOf(a, l, image).value) in y; }
        if TaggedOf(b, l, image).Some? { assert (l, TaggedOf(b, l, image).value) in x; }
      }
    }
  }

  /** A write that replaces at most message id marks right. */
  lemma MessageWrite(db: Db, written: Db, id: int, image: int)
    requires written.links == db.links && written.tags == db.tags
    requires forall m, i | m != id :: SaidOf(written, m, i) == SaidOf(db, m, i)
    ensures FactsOf(written, image) == FactsOf(db, image) <==> SaidOf(written, id, image) == SaidOf(db, id, image)
  {
    FactsRowwise(written, db, image);
    assert FactsOf(written, image).tags == FactsOf(db, image).tags;
  }

  lemma LinkWrite(db: Db, written: Db, id: int, image: int)
    requires written.messages == db.messages && written.tags == db.tags
    requires forall l, i | l != id :: TaggedOf(written, l, i) == TaggedOf(db, l, i)
    ensures FactsOf(written, image) == FactsOf(db, image) <==> TaggedOf(written, id, image) == TaggedOf(db, id, image)
  {
    FactsRowwise(written, db, image);
    assert FactsOf(written, image).comments == FactsOf(db, image).comments;
  }

  lemma MarkAllTracks(db: Db, targets: set<int>, txid: nat, image: int)
    requires db.jobs.Keys <= db.images && image in db.images
    ensures Tracks(db, txid, MarkAll(db, targets, txid), image in targets, image)
    ensures FactsOf(MarkAll(db, targets, txid), image) == FactsOf(db, image)
  {
  }

  /** Every write changes the facts of exactly its targets. */
  lemma TargetsAreChanged(db: Db, w: Write, image: int)
    requires WellFormed(db) && !Aborts(db, w) && image in Written(db, w).images
    ensures FactsOf(Written(db, w), image) != FactsOf(db, image) <==> image in Targets(db, w)
  {
    var written := Written(db, w);
    if w.InsertMessage? || w.UpdateMessage? || w.DeleteMessage? {
      MessageWrite(db, written, w.id, image);
    } else if w.InsertLink? || w.UpdateLink? || w.DeleteLink? {
      LinkWriteTargets(db, w, image);
    } else if w.RenameTag? || w.DeleteTag? {
      TagWriteTargets(db, w, image);
    } else {
      FactsRowwise(written, db, image);
      assert forall m :: SaidOf(written, m, image) == SaidOf(db, m, image);
      assert forall l :: TaggedOf(written, l, image) == TaggedOf(db, l, image);
    }
  }

  lemma LinkWriteTargets(db: Db, w: Write, image: int)
    requires WellFormed(db) && !Aborts(db, w) && image in db.images
    requires w.InsertLink? || w.UpdateLink? || w.DeleteLink?
    ensures FactsOf(Written(db, w), image) != FactsOf(db, image) <==> image in Targets(db, w)
  {
    LinkWrite(db, Written(db, w), w.id, image);
  }

  lemma TagWriteTargets(db: Db, w: Write, image: int)
    requires WellFormed(db) && !Aborts(db, w) && image in db.images
    requires w.RenameTag? || w.DeleteTag?
    ensures FactsOf(Written(db, w), image) != FactsOf(db, image) <==> image in Targets(db, w)
  {
    var written := Written(db, w);
    FactsRowwise(written, db, image);
    if image in Targets(db, w) {
      var l :| l in db.links && db.links[l] == Link(image, w.id);
      assert TaggedOf(written, l, image) != TaggedOf(db, l, image);
    } else {
      forall l ensures TaggedOf(written, l, image) == TaggedOf(db, l, image) {
        if TaggedOf(db, l, image).Some? && db.links[l].tag == w.id { assert image in LinkedImages(db, w.id); }
      }
      assert forall m :: SaidOf(written, m, image) == SaidOf(db, m, image);
    }
  }

  lemma ApplyTracks(db: Db, txid: nat, w: Write, image: int)
    requires WellFormed(db) && Apply(db, txid, w).Some?
    requires image in Apply(db, txid, w).value.images
    ensures var after := Apply(db, txid, w).value;
      Tracks(db, txid, after, FactsOf(after, image) != FactsOf(db, image), image)
  {
    var written := Written(db, w);
    WrittenWellFormed(db, w);
    TargetsAreChanged(db, w, image);
    MarkAllTracks(written, Targets(db, w), txid, image);
    assert JobOf(written, image) == JobOf(db, image) && written.now == db.now;
  }

  lemma WrittenWellFormed(db: Db, w: Write)
    requires WellFormed(db) && !Aborts(db, w)
    ensures WellFormed(Written(db, w))
  {
    if w.DeleteImage? { DeleteImageWellFormed(db, w); }
    else if w.DeleteTag? || w.RenameTag? || w.InsertTag? { TagWriteWellFormed(db, w); }
  }

  lemma DeleteImageWellFormed(db: Db, w: Write)
    requires WellFormed(db) && w.DeleteImage?
    ensures WellFormed(Written(db, w))
  {
  }

  lemma TagWriteWellFormed(db: Db, w: Write)
    requires WellFormed(db) && !Aborts(db, w) && (w.DeleteTag? || w.RenameTag? || w.InsertTag?)
    ensures WellFormed(Written(db, w))
  {
  }

  lemma ApplyWellFormed(db: Db, txid: nat, w: Write)
    requires WellFormed(db) && Apply(db, txid, w).Some?
    ensures WellFormed(Apply(db, txid, w).value)
  {
    WrittenWellFormed(db, w);
  }

  // ----- Whole transactions -----

  /** Some write of the list changed the image's annotations. */
  ghost predicate Touched(db: Db, txid: nat, ws: seq<Write>, image: int)
    decreases |ws|
  {
    ws != [] && Apply(db, txid, ws[0]).Some? &&
    var mid := Apply(db, txid, ws[0]).value;
    (FactsOf(mid, image) != FactsOf(db, image) || Touched(mid, txid, ws[1..], image))
  }

  lemma NothingOnAbsentImage(db: Db, image: int)
    requires WellFormed(db) && image !in db.images
    ensures FactsOf(db, image) == Facts({}, {}) && JobOf(db, image) == None
  {
  }

  lemma {:induction false} ApplyAllTracks(db: Db, txid: nat, ws: seq<Write>, image: int)
    requires WellFormed(db) && ApplyAll(db, txid, ws).Some?
    requires image in ApplyAll(db, txid, ws).value.images
    ensures Tracks(db, txid, ApplyAll(db, txid, ws).value, Touched(db, txid, ws, image), image)
    decreases |ws|
  {
    if ws != [] {
      var mid := Apply(db, txid, ws[0]).value;
      ApplyWellFormed(db, txid, ws[0]);
      ImagesOf(db, txid, ws[0]);
      ImageSurvives(mid, txid, ws[1..], image);
      FirstTracks(db, txid, ws[0], image);
      ApplyAllTracks(mid, txid, ws[1..], image);
      TracksTwice(db, mid, ApplyAll(db, txid, ws).value, txid,
                  FactsOf(mid, image) != FactsOf(db, image), Touched(mid, txid, ws[1..], image), image);
    }
  }

  lemma FirstTracks(db: Db, txid: nat, w: Write, image: int)
    requires WellFormed(db) && Apply(db, txid, w).Some?
    requires var mid := Apply(db, txid, w).value; image < mid.nextImage ==> image in mid.images
    ensures var mid := Apply(db, txid, w).value;
      Tracks(db, txid, mid, FactsOf(mid, image) != FactsOf(db, image), image)
  {
    var mid := Apply(db, txid, w).value;
    if image in mid.images {
      ApplyTracks(db, txid, w, image);
    } else {
      ApplyWellFormed(db, txid, w);
      ImagesOf(db, txid, w);
      NothingOnAbsentImage(db, image);
      NothingOnAbsentImage(mid, image);
    }
  }

  lemma TracksTwice(db: Db, mid: Db, after: Db, txid: nat, first: bool, second: bool, image: int)
    requires Tracks(db, txid, mid, first, image) && Tracks(mid, txid, after, second, image) && mid.now == db.now
    ensures Tracks(db, txid, after, first || second, image)
  {
  }

  lemma {:induction false} ImageSurvives(db: Db, txid: nat, ws: seq<Write>, image: int)
    requires WellFormed(db) && ApplyAll(db, txid, ws).Some?
    requires image in ApplyAll(db, txid, ws).value.images
    ensures image < db.nextImage ==> image in db.images
    decreases |ws|
  {
    if ws != [] {
      var mid := Apply(db, txid, ws[0]).value;
      ApplyWellFormed(db, txid, ws[0]);
      ImageSurvives(mid, txid, ws[1..], image);
      ImagesOf(db, txid, ws[0]);
    }
  }

  lemma ImagesOf(db: Db, txid: nat, w: Write)
    requires Apply(db, txid, w).Some?
    ensures var mid := Apply(db, txid, w).value;
      mid.nextImage >= db.nextImage && mid.now == db.now && mid.setting == db.setting
      && (forall i | i in mid.images :: i in db.images || i >= db.nextImage)
  {
  }

  /** However many writes a transaction makes, an image they touch gets exactly one new revision, pending at
      once with priority 1, its lease and attempts forgotten; an untouched job row is unchanged, and an aborted
      transaction leaves no trace. */
  lemma Coalescing(db: Db, txid: nat, ws: seq<Write>, image: int)
    requires WellFormed(db) && (forall i | i in db.jobs :: db.jobs[i].txid != txid)
    ensures ApplyAll(db, txid, ws).None? ==> Transaction(db, txid, ws) == db
    ensures ApplyAll(db, txid, ws).Some? && image in Transaction(db, txid, ws).images ==>
      var after := Transaction(db, txid, ws);
      && (!Touched(db, txid, ws, image) ==> JobOf(after, image) == JobOf(db, image))
      && (Touched(db, txid, ws, image) ==>
           && image in after.jobs
           && after.jobs[image] == Job(if image in db.jobs then db.jobs[image].revision + 1 else 1,
                                       if image in db.jobs then db.jobs[image].completed else 0,
                                       Pending, txid, 1, db.now, None, None, 0, false))
  {
    if ApplyAll(db, txid, ws).Some? && image in Transaction(db, txid, ws).images {
      ApplyAllTracks(db, txid, ws, image);
    }
  }

  /** Without a touching write the image's annotations are the same afterwards. */
  lemma {:induction false} UntouchedFacts(db: Db, txid: nat, ws: seq<Write>, image: int)
    requires ApplyAll(db, txid, ws).Some? && !Touched(db, txid, ws, image)
    ensures FactsOf(ApplyAll(db, txid, ws).value, image) == FactsOf(db, image)
    decreases |ws|
  {
    if ws != [] {
      UntouchedFacts(Apply(db, txid, ws[0]).value, txid, ws[1..], image);
    }
  }

  /** What a transaction leaves alone. */
  ghost predicate Frame(db: Db, after: Db) {
    && WellFormed(after)
    && after.now == db.now && after.setting == db.setting && after.nextImage >= db.nextImage
    && (forall i | i in after.images :: i in db.images || i >= db.nextImage)
    && (forall i | i in after.images ::
        (i in after.embeddings <==> i in db.embeddings) && (i in after.terms <==> i in db.terms))
    && (forall i | i in after.embeddings :: i in db.embeddings && after.embeddings[i] == db.embeddings[i])
    && (forall i | i in after.terms :: i in db.terms && after.terms[i] == db.terms[i])
  }

  lemma ApplyFrame(db: Db, txid: nat, w: Write)
    requires WellFormed(db) && Apply(db, txid, w).Some?
    ensures Frame(db, Apply(db, txid, w).value)
  {
    ApplyWellFormed(db, txid, w);
  }

  lemma {:induction false} TransactionFrame(db: Db, txid: nat, ws: seq<Write>)
    requires WellFormed(db) && ApplyAll(db, txid, ws).Some?
    ensures Frame(db, ApplyAll(db, txid, ws).value)
    decreases |ws|
  {
    if ws != [] {
      var mid := Apply(db, txid, ws[0]).value;
      ApplyFrame(db, txid, ws[0]);
      TransactionFrame(mid, txid, ws[1..]);
      FrameTwice(db, mid, ApplyAll(db, txid, ws).value);
    }
  }

  lemma FrameTwice(db: Db, mid: Db, after: Db)
    requires WellFormed(db) && Frame(db, mid) && Frame(mid, after)
    ensures Frame(db, after)
  {
  }

  lemma AnnotatedByFacts(db: Db, image: int)
    ensures Annotated(db, image) <==> FactsOf(db, image) != Facts({}, {})
  {
    if Annotated(db, image) {
      if exists l :: l in db.links && db.links[l].image == image {
        var l :| l in db.links && db.links[l].image == image;
        assert (l, TagName(db, db.links[l].tag)) in FactsOf(db, image).tags;
      } else {
        var m :| m in db.messages && db.messages[m].image == image;
        assert (m, db.messages[m].text) in FactsOf(db, image).comments;
      }
    }
  }
}
