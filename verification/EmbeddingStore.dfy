/** The trigger functions and the worker's transactions as they run: tables updated statement
    by statement, each proved to do what its specification function says. */
module EmbeddingStore {
  import opened Basics
  import opened Tables
  import opened Triggers
  import opened EmbeddingQueue
  import opened Lexical
  import Ranking

  class Store {
    var now: int
    var nextImage: int
    var images: set<int>
    var messages: map<int, Message>
    var tags: map<int, string>
    var links: map<int, Link>
    var jobs: map<int, Job>
    var embeddings: map<int, Embedding>
    var terms: map<int, map<string, real>>
    var setting: Option<Version>
    var nextToken: nat

    function State(): Db
      reads this
    {
      Db(now, nextImage, images, messages, tags, links, jobs, embeddings, terms, setting)
    }

    // ----- Triggers -----

    method MarkDirty(target: int, txid: nat)
      requires jobs.Keys <= images
      modifies this`jobs
      ensures State() == MarkAll(old(State()), {target}, txid)
    {
      if target in images {
        if target !in jobs {
          jobs := jobs[target := NewJob(1, txid, now)];
        } else if jobs[target].txid != txid {
          var j := jobs[target];
          jobs := jobs[target := j.(revision := j.revision + 1, status := Pending, priority := 1, availableAt := now,
                                    token := None, leaseUntil := None, attempts := 0, hasError := false, txid := txid)];
        }
      }
      assert jobs == MarkAll(old(State()), {target}, txid).jobs;
    }

    /** AFTER INSERT OR DELETE OR UPDATE OF text, image ON message */
    method MessageChanged(before: Option<Message>, after: Option<Message>, txid: nat)
      requires jobs.Keys <= images && (before.Some? || after.Some?)
      modifies this`jobs
      ensures State() == MarkAll(old(State()), ChangedImages(before, after), txid)
    {
      if before.Some? && after.Some? && after.value.image == before.value.image
        && after.value.text == before.value.text {
        assert jobs == MarkAll(old(State()), {}, txid).jobs;
        return;
      }
      if after.Some? {
        MarkDirty(after.value.image, txid);
      }
      if before.Some? && (after.None? || before.value.image != after.value.image) {
        MarkDirty(before.value.image, txid);
      }
      assert jobs == MarkAll(old(State()), ChangedImages(before, after), txid).jobs;
    }

    /** AFTER INSERT OR DELETE OR UPDATE ON tag_image */
    method LinkChanged(before: Option<Link>, after: Option<Link>, txid: nat)
      requires jobs.Keys <= images && (before.Some? || after.Some?)
      modifies this`jobs
      ensures State() == MarkAll(old(State()), RelinkedImages(before, after), txid)
    {
      if before.Some? && after.Some? && after.value.image == before.value.image && after.value.tag == before.value.tag {
        assert jobs == MarkAll(old(State()), {}, txid).jobs;
        return;
      }
      if after.Some? {
        MarkDirty(after.value.image, txid);
      }
      if before.Some? && (after.None? || before.value.image != after.value.image) {
        MarkDirty(before.value.image, txid);
      }
      assert jobs == MarkAll(old(State()), RelinkedImages(before, after), txid).jobs;
    }

    /** AFTER UPDATE OF name ON tag, when the name is distinct */
    method TagRenamed(tag: int, txid: nat)
      requires jobs.Keys <= images
      modifies this`jobs
      ensures State() == MarkAll(old(State()), LinkedImages(old(State()), tag), txid)
    {
      var pending := LinksWith(links, tag);
      ghost var all, done: set<int> := pending, {};
      NoneMarked(State(), txid);
      while pending != {}
        invariant pending <= all && done == ImagesOfLinks(links, all - pending)
        invariant jobs.Keys <= images && jobs == MarkAll(old(State()), done, txid).jobs
        decreases pending
      {
        HasElement(pending);
        var l :| l in pending;
        OneLinkLess(links, all, pending, l);
        MarkedNext(old(State()), State(), done, links[l].image, txid);
        MarkDirty(links[l].image, txid);
        pending := pending - {l};
        done := done + {links[l].image};
      }
      assert all - pending == all;
      assert done == LinkedImages(old(State()), tag);
    }

    // ----- Cascaded deletions, whose row triggers fire one by one in any order -----

    method DeleteLinks(doomed: set<int>, txid: nat)
      requires doomed <= links.Keys && jobs.Keys <= images
      modifies this`links, this`jobs
      ensures links == old(links) - doomed
      ensures jobs == MarkAll(old(State()), ImagesOfLinks(old(links), doomed), txid).jobs
    {
      var pending := doomed;
      ghost var done: set<int> := {};
      NoneMarked(State(), txid);
      while pending != {}
        invariant pending <= doomed && links == old(links) - (doomed - pending)
        invariant done == ImagesOfLinks(old(links), doomed - pending)
        invariant jobs.Keys <= images && jobs == MarkAll(old(State()), done, txid).jobs
        decreases pending
      {
        HasElement(pending);
        var l :| l in pending;
        var link := links[l];
        OneLinkLess(old(links), doomed, pending, l);
        links := links - {l};
        MarkedNext(old(State()), State(), done, link.image, txid);
        LinkChanged(Some(link), None, txid);
        pending := pending - {l};
        done := done + {link.image};
      }
      assert doomed - pending == doomed;
    }

    method DeleteMessages(doomed: set<int>, txid: nat)
      requires doomed <= messages.Keys && jobs.Keys <= images
      modifies this`messages, this`jobs
      ensures messages == old(messages) - doomed
      ensures jobs == MarkAll(old(State()), ImagesOfMessages(old(messages), doomed), txid).jobs
    {
      var pending := doomed;
      ghost var done: set<int> := {};
      NoneMarked(State(), txid);
      while pending != {}
        invariant pending <= doomed && messages == old(messages) - (doomed - pending)
        invariant done == ImagesOfMessages(old(messages), doomed - pending)
        invariant jobs.Keys <= images && jobs == MarkAll(old(State()), done, txid).jobs
        decreases pending
      {
        HasElement(pending);
        var m :| m in pending;
        var message := messages[m];
        OneMessageLess(old(messages), doomed, pending, m);
        messages := messages - {m};
        MarkedNext(old(State()), State(), done, message.image, txid);
        MessageChanged(Some(message), None, txid);
        pending := pending - {m};
        done := done + {message.image};
      }
      assert doomed - pending == doomed;
    }

    /** DELETE of a tag: its links go with it, each firing the link trigger. */
    method DeleteTag(tag: int, txid: nat)
      requires Tables.WellFormed(State())
      modifies this`tags, this`links, this`jobs
      ensures State() == Apply(old(State()), txid, Write.DeleteTag(tag)).value
    {
      tags := tags - {tag};
      DeleteLinks(LinksWith(links, tag), txid);
      assert ImagesOfLinks(old(links), LinksWith(old(links), tag)) == LinkedImages(old(State()), tag);
      assert links == Written(old(State()), Write.DeleteTag(tag)).links;
      assert tag !in old(tags) ==> LinkedImages(old(State()), tag) == {};
      assert jobs == Apply(old(State()), txid, Write.DeleteTag(tag)).value.jobs;
    }

    /** DELETE of an image: its rows go with it, and the triggers of its messages and links find no
        image to mark. */
    method DeleteImage(id: int, txid: nat)
      requires Tables.WellFormed(State())
      modifies this`images, this`messages, this`links, this`jobs, this`embeddings, this`terms
      ensures State() == Apply(old(State()), txid, Write.DeleteImage(id)).value
    {
      images := images - {id};
      jobs, embeddings, terms := jobs - {id}, embeddings - {id}, terms - {id};
      AbsentUnmarked(State(), ImagesOfLinks(links, LinksOn(links, id)), txid, id);
      DeleteLinks(LinksOn(links, id), txid);
      AbsentUnmarked(State(), ImagesOfMessages(messages, MessagesOn(messages, id)), txid, id);
      DeleteMessages(MessagesOn(messages, id), txid);
      ImageDeleted(old(State()), State(), id, txid);
    }

    // ----- The worker's transactions -----

    method Configure(version: Version, txid: nat)
      requires jobs.Keys <= images
      modifies this`jobs, this`setting
      ensures State() == Configured(old(State()), version, txid)
    {
      if setting.None? {
        setting := Some(version);
      }
      var previous := setting.value;
      if previous != version {
        var rows, clock := jobs, now;
        jobs := map i | i in rows ::
          rows[i].(revision := rows[i].revision + 1, status := Pending, availableAt := clock, token := None,
                   leaseUntil := None, attempts := 0, hasError := false);
        setting := Some(version);
        assert forall i | i in rows :: jobs[i] == Invalidated(rows[i], clock);
        assert jobs == InvalidateAll(old(State())).jobs;
      }
      QueueAnnotated(txid);
    }

    method QueueAnnotated(txid: nat)
      modifies this`jobs
      ensures State() == Backfill(old(State()), txid)
    {
      var missing, clock := Unqueued(State()), now;
      BackfillJobs(State(), txid);
      jobs := jobs + map i | i in missing :: NewJob(0, txid, clock);
    }

    /** Takes the first claimable job in queue order under a fresh token. */
    method Claim() returns (claimed: Option<Ticket>)
      modifies this`jobs, this`nextToken
      ensures claimed.None? ==> State() == old(State()) && forall i | i in jobs :: !Claimable(jobs[i], now)
      ensures claimed.Some? ==>
        var t, db := claimed.value, old(State());
        && t.image in db.jobs && Claimable(db.jobs[t.image], now)
        && FirstInQueue(db, t.image)
        && t == TicketFor(db, t.image, old(nextToken)) && State() == Claimed(db, t.image, old(nextToken))
      ensures nextToken == old(nextToken) + if claimed.Some? then 1 else 0
    {
      var pending := ClaimableIn(jobs, now);
      if pending == {} {
        assert forall i | i in jobs && Claimable(jobs[i], now) :: i in ClaimableIn(jobs, now);
        return None;
      }
      HasElement(pending);
      var best :| best in pending;
      pending := pending - {best};
      while pending != {}
        invariant jobs == old(jobs) && nextToken == old(nextToken)
        invariant best in jobs && Claimable(jobs[best], now)
        invariant pending <= jobs.Keys
        invariant forall i | i in jobs && Claimable(jobs[i], now) && i != best && i !in pending ::
          ClaimsBefore(State(), best, i)
        decreases pending
      {
        HasElement(pending);
        var i :| i in pending;
        pending := pending - {i};
        if Claimable(jobs[i], now) && ClaimsBefore(State(), i, best) {
          best := i;
        }
      }
      var j := jobs[best];
      claimed := Some(Ticket(best, j.revision, nextToken, j.attempts + 1));
      jobs := jobs[best := j.(status := Running, token := Some(nextToken), leaseUntil := Some(now + 120),
                              attempts := j.attempts + 1)];
      nextToken := nextToken + 1;
    }

    method CollectTags(image: int) returns (rows: seq<Row>)
      ensures Ranking.Distinct(rows) && Ranking.Elements(rows) == TagRows(State(), image)
    {
      rows := [];
      var pending := TagRows(State(), image);
      while pending != {}
        invariant pending <= TagRows(State(), image)
        invariant Ranking.Distinct(rows) && Ranking.Elements(rows) == TagRows(State(), image) - pending
        decreases pending
      {
        var row :| row in pending;
        assert row !in Ranking.Elements(rows);
        assert Ranking.Elements(rows + [row]) == Ranking.Elements(rows) + {row};
        rows := rows + [row];
        pending := pending - {row};
      }
    }

    method CollectComments(image: int) returns (rows: seq<Row>)
      ensures Ranking.Distinct(rows) && Ranking.Elements(rows) == CommentRows(State(), image)
    {
      rows := [];
      var pending := CommentRows(State(), image);
      while pending != {}
        invariant pending <= CommentRows(State(), image)
        invariant Ranking.Distinct(rows) && Ranking.Elements(rows) == CommentRows(State(), image) - pending
        decreases pending
      {
        var row :| row in pending;
        assert row !in Ranking.Elements(rows);
        assert Ranking.Elements(rows + [row]) == Ranking.Elements(rows) + {row};
        rows := rows + [row];
        pending := pending - {row};
      }
    }

    /** The repeatable-read snapshot: refused unless the ticket is current. */
    method Source(t: Ticket) returns (source: Option<Source>)
      ensures source.Some? <==> Current(State(), t)
      ensures source.Some? ==> source.value == SourceOf(State(), t.image)
    {
      if t.image !in jobs || jobs[t.image].revision != t.revision || jobs[t.image].token != Some(t.token) {
        return None;
      }
      ByNameTotal();
      ByDateTotal();
      var tagRows := CollectTags(t.image);
      Ranking.SortSeqLists(ByName(), tagRows);
      tagRows := Ranking.SortSeq(ByName(), tagRows);
      Ranking.ListsUnique(ByName(), tagRows, Ranking.Ranked(ByName(), TagRows(State(), t.image)),
                          TagRows(State(), t.image));
      var commentRows := CollectComments(t.image);
      Ranking.SortSeqLists(ByDate(), commentRows);
      commentRows := Ranking.SortSeq(ByDate(), commentRows);
      Ranking.ListsUnique(ByDate(), commentRows, Ranking.Ranked(ByDate(), CommentRows(State(), t.image)),
                          CommentRows(State(), t.image));
      var tagTexts := AppendTexts(tagRows);
      var commentTexts := AppendTexts(commentRows);
      source := Some(Lexical.Source(tagTexts, commentTexts));
    }

    method Publish(t: Ticket, version: Version, vector: map<string, real>) returns (published: bool)
      modifies this`jobs, this`embeddings, this`terms
      ensures published == CanPublish(old(State()), t, version)
      ensures State() == Published(old(State()), t, version, vector)
    {
      if t.image !in jobs || jobs[t.image].revision != t.revision || jobs[t.image].token != Some(t.token)
         || jobs[t.image].leaseUntil.None? || jobs[t.image].leaseUntil.value <= now || jobs[t.image].status != Running {
        return false;
      }
      if setting != Some(version) {
        return false;
      }
      var status := StoreVector(t, version, vector);
      var j := jobs[t.image];
      jobs := jobs[t.image := j.(status := status, completed := j.revision, token := None, leaseUntil := None,
                                 attempts := 0, hasError := false)];
      published := true;
    }

    method StoreVector(t: Ticket, version: Version, vector: map<string, real>) returns (status: Status)
      modifies this`embeddings, this`terms
      ensures status == if vector == map[] then Empty else Ready
      ensures embeddings == if vector == map[] then old(embeddings) - {t.image}
        else old(embeddings)[t.image := Embedding(version, t.revision)]
      ensures terms == if vector == map[] then old(terms) - {t.image} else old(terms)[t.image := vector]
    {
      if |vector| == 0 {
        embeddings := embeddings - {t.image};
        terms := terms - {t.image};
        return Empty;
      }
      embeddings := embeddings[t.image := Embedding(version, t.revision)];
      terms := terms - {t.image};
      terms := terms[t.image := vector];
      return Ready;
    }

    method Heartbeat(t: Ticket) returns (alive: bool)
      modifies this`jobs
      ensures alive == (Current(old(State()), t) && old(jobs)[t.image].status == Running)
      ensures State() == Renewed(old(State()), t)
    {
      alive := t.image in jobs && jobs[t.image].revision == t.revision && jobs[t.image].token == Some(t.token)
        && jobs[t.image].status == Running;
      if alive {
        jobs := jobs[t.image := jobs[t.image].(leaseUntil := Some(now + 120))];
      }
    }

    method Fail(t: Ticket)
      modifies this`jobs
      ensures State() == FailedBy(old(State()), t)
    {
      var delay := Min(600, 5 * PowerOfTwo(Min(t.attempts, 7)));
      if t.image in jobs && jobs[t.image].revision == t.revision && jobs[t.image].token == Some(t.token) {
        jobs := jobs[t.image := jobs[t.image].(status := Failed, availableAt := now + delay, token := None,
                                               leaseUntil := None, hasError := true)];
      }
    }

    method Sleep(seconds: nat)
      modifies this`now
      ensures State() == old(State()).(now := old(now) + seconds)
    {
      now := now + seconds;
    }
  }

  lemma HasElement(s: set<int>)
    requires s != {}
    ensures exists x :: x in s
  {
    assert (forall x :: x !in s) ==> s == {};
  }

  function Unqueued(db: Db): set<int> {
    set i | i in db.images && Annotated(db, i) && i !in db.jobs
  }

  function LinksWith(links: map<int, Link>, tag: int): set<int> {
    set l | l in links && links[l].tag == tag
  }

  function LinksOn(links: map<int, Link>, image: int): set<int> {
    set l | l in links && links[l].image == image
  }

  function MessagesOn(messages: map<int, Message>, image: int): set<int> {
    set m | m in messages && messages[m].image == image
  }

  ghost function ImagesOfLinks(links: map<int, Link>, ids: set<int>): set<int> {
    set l | l in ids && l in links :: links[l].image
  }

  ghost function ImagesOfMessages(messages: map<int, Message>, ids: set<int>): set<int> {
    set m | m in ids && m in messages :: messages[m].image
  }

  lemma BackfillJobs(db: Db, txid: nat)
    ensures Backfill(db, txid).jobs == db.jobs + map i | i in Unqueued(db) :: NewJob(0, txid, db.now)
  {
    assert Unqueued(db) == (set x | x in db.images && Annotated(db, x)) - db.jobs.Keys;
  }

  /** What deleting an image leaves, for any job id. */
  lemma ImageDeleted(db: Db, after: Db, id: int, txid: nat)
    requires after == db.(images := db.images - {id}, messages := db.messages - MessagesOn(db.messages, id),
                          links := db.links - LinksOn(db.links, id), jobs := db.jobs - {id},
                          embeddings := db.embeddings - {id}, terms := db.terms - {id})
    ensures after == Apply(db, txid, Write.DeleteImage(id)).value
  {
    var written := Written(db, Write.DeleteImage(id));
    assert after.messages == written.messages;
    assert after.links == written.links;
    AbsentUnmarked(written, {id}, txid, id);
  }

  lemma NoneMarked(db: Db, txid: nat)
    ensures MarkAll(db, {}, txid).jobs == db.jobs
  {
  }

  /** Marking one more image; only the jobs, the images and the clock matter. */
  lemma MarkedNext(before: Db, db: Db, done: set<int>, image: int, txid: nat)
    requires db.images == before.images && db.now == before.now && db.jobs == MarkAll(before, done, txid).jobs
    ensures MarkAll(db, {image}, txid).jobs == MarkAll(before, done + {image}, txid).jobs
  {
  }

  lemma AbsentUnmarked(db: Db, targets: set<int>, txid: nat, id: int)
    requires targets <= {id} && id !in db.images
    ensures MarkAll(db, targets, txid) == db
  {
    assert MarkAll(db, targets, txid).jobs == db.jobs;
  }

  lemma OneLinkLess(links: map<int, Link>, doomed: set<int>, pending: set<int>, l: int)
    requires l in pending && pending <= doomed <= links.Keys
    ensures links - (doomed - pending) - {l} == links - (doomed - (pending - {l}))
    ensures ImagesOfLinks(links, doomed - (pending - {l})) == ImagesOfLinks(links, doomed - pending) + {links[l].image}
  {
    assert doomed - (pending - {l}) == doomed - pending + {l};
  }

  lemma OneMessageLess(messages: map<int, Message>, doomed: set<int>, pending: set<int>, m: int)
    requires m in pending && pending <= doomed <= messages.Keys
    ensures messages - (doomed - pending) - {m} == messages - (doomed - (pending - {m}))
    ensures ImagesOfMessages(messages, doomed - (pending - {m})) == ImagesOfMessages(messages, doomed - pending)
      + {messages[m].image}
  {
    assert doomed - (pending - {m}) == doomed - pending + {m};
  }

  function ClaimableIn(jobs: map<int, Job>, now: int): set<int> {
    set i | i in jobs && Claimable(jobs[i], now)
  }

  function ChangedImages(before: Option<Message>, after: Option<Message>): set<int> {
    match (before, after)
    case (Some(b), Some(a)) => if a.image == b.image && a.text == b.text then {} else {a.image, b.image}
    case (Some(b), None) => {b.image}
    case (None, Some(a)) => {a.image}
    case (None, None) => {}
  }

  function RelinkedImages(before: Option<Link>, after: Option<Link>): set<int> {
    match (before, after)
    case (Some(b), Some(a)) => if a == b then {} else {a.image, b.image}
    case (Some(b), None) => {b.image}
    case (None, Some(a)) => {a.image}
    case (None, None) => {}
  }

  /** Row by row, the triggers mark what one write marks in the transaction model. */
  lemma TriggersAreTargets(db: Db, id: int, image: int, tag: int, text: string, date: int)
    ensures
      var message := if id in db.messages then Some(db.messages[id]) else None;
      var link := if id in db.links then Some(db.links[id]) else None;
      && Targets(db, InsertMessage(id, image, text, date)) == ChangedImages(None, Some(Message(image, text, date)))
      && Targets(db, DeleteMessage(id)) == ChangedImages(message, None)
      && (message.Some? ==>
            Targets(db, UpdateMessage(id, image, text, date))
            == ChangedImages(message, Some(Message(image, text, date))))
      && Targets(db, InsertLink(id, image, tag)) == RelinkedImages(None, Some(Link(image, tag)))
      && Targets(db, DeleteLink(id)) == RelinkedImages(link, None)
      && (link.Some? ==> Targets(db, UpdateLink(id, image, tag)) == RelinkedImages(link, Some(Link(image, tag))))
  {
  }

  method AppendTexts(rows: seq<Row>) returns (texts: seq<string>)
    ensures texts == Texts(rows)
  {
    texts := [];
    for k := 0 to |rows|
      invariant texts + Texts(rows[k..]) == Texts(rows)
    {
      assert rows[k..][1..] == rows[k + 1..];
      texts := texts + [rows[k].text];
    }
  }
}
