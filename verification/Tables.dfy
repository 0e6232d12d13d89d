/** The tables of the lexical index, and what an image's annotations are. */
module Tables {
  import opened Basics
  import opened Lexical
  import Ranking

  /** The fingerprint stored beside vectors. The algorithm name is fixed and hashing is
      collision free, so a fingerprint stands for the tag weight it was computed from. */
  datatype Version = Version(tagWeight: real)

  datatype Message = Message(image: int, text: string, date: int)

  datatype Link = Link(image: int, tag: int)

  datatype Status = Pending | Running | Ready | Empty | Failed

  datatype Job = Job(revision: nat, completed: nat, status: Status, txid: nat, priority: int, availableAt: int,
                     token: Option<nat>, leaseUntil: Option<int>, attempts: nat, hasError: bool)

  datatype Embedding = Embedding(version: Version, builtRevision: nat)

  datatype Db = Db(now: int, nextImage: int, images: set<int>, messages: map<int, Message>, tags: map<int, string>,
                   links: map<int, Link>, jobs: map<int, Job>, embeddings: map<int, Embedding>,
                   terms: map<int, map<string, real>>, setting: Option<Version>)

  /** Foreign keys, unique tag names, and image ids drawn from a sequence. */
  ghost predicate WellFormed(db: Db) {
    && (forall i | i in db.images :: i < db.nextImage)
    && (forall m | m in db.messages :: db.messages[m].image in db.images)
    && (forall l | l in db.links :: db.links[l].image in db.images && db.links[l].tag in db.tags)
    && (forall t, u | t in db.tags && u in db.tags && t != u :: db.tags[t] != db.tags[u])
    && db.jobs.Keys <= db.images
    && db.embeddings.Keys <= db.images
    && db.terms.Keys <= db.embeddings.Keys
  }

  function JobOf(db: Db, image: int): Option<Job> {
    if image in db.jobs then Some(db.jobs[image]) else None
  }

  // ----- Annotations -----

  function TagName(db: Db, tag: int): string {
    if tag in db.tags then db.tags[tag] else ""
  }

  /** What an image is annotated with, apart from dates: its links with their tags' names,
      and its messages with their texts. */
  datatype Facts = Facts(tags: set<(int, string)>, comments: set<(int, string)>)

  function FactsOf(db: Db, image: int): Facts {
    Facts(set l | l in db.links && db.links[l].image == image :: (l, TagName(db, db.links[l].tag)),
          set m | m in db.messages && db.messages[m].image == image :: (m, db.messages[m].text))
  }

  predicate Annotated(db: Db, image: int) {
    (exists l :: l in db.links && db.links[l].image == image)
      || (exists m :: m in db.messages && db.messages[m].image == image)
  }

  // ----- Reading the source of a vector -----

  datatype Row = Row(id: int, date: int, text: string)

  function ByName(): (Row, Row) -> bool {
    (a: Row, b: Row) => TextLess(a.text, b.text)
      || (a.text == b.text && (a.id < b.id || (a.id == b.id && a.date < b.date)))
  }

  function ByDate(): (Row, Row) -> bool {
    (a: Row, b: Row) => a.date < b.date
      || (a.date == b.date && (a.id < b.id || (a.id == b.id && TextLess(a.text, b.text))))
  }

  lemma ByNameTotal()
    ensures Ranking.StrictTotal(ByName())
  {
    forall x: Row, y: Row ensures !ByName()(x, x) && (x != y ==> ByName()(x, y) || ByName()(y, x)) {
      TextLessTotal(x.text, y.text);
    }
    forall x: Row, y: Row, z: Row | ByName()(x, y) && ByName()(y, z) ensures ByName()(x, z) {
      if TextLess(x.text, y.text) && TextLess(y.text, z.text) { TextLessTransitive(x.text, y.text, z.text); }
    }
  }

  lemma ByDateTotal()
    ensures Ranking.StrictTotal(ByDate())
  {
    forall x: Row, y: Row ensures !ByDate()(x, x) && (x != y ==> ByDate()(x, y) || ByDate()(y, x)) {
      TextLessTotal(x.text, y.text);
    }
    forall x: Row, y: Row, z: Row | ByDate()(x, y) && ByDate()(y, z) ensures ByDate()(x, z) {
      if TextLess(x.text, y.text) && TextLess(y.text, z.text) { TextLessTransitive(x.text, y.text, z.text); }
    }
  }

  /** btrim(text) <> '' */
  predicate NotBlank(text: string) {
    exists k :: 0 <= k < |text| && text[k] != ' '
  }

  function TagRows(db: Db, image: int): set<Row> {
    set l | l in db.links && db.links[l].image == image :: Row(l, 0, TagName(db, db.links[l].tag))
  }

  function CommentRows(db: Db, image: int): set<Row> {
    set m | m in db.messages && db.messages[m].image == image && NotBlank(db.messages[m].text) ::
      Row(m, db.messages[m].date, db.messages[m].text)
  }

  function Texts(rows: seq<Row>): seq<string> {
    if rows == [] then [] else [rows[0].text] + Texts(rows[1..])
  }

  /** The tags by name and the non-blank comments by date, as the worker reads them. */
  ghost function SourceOf(db: Db, image: int): Source {
    ByNameTotal();
    ByDateTotal();
    Source(Texts(Ranking.Ranked(ByName(), TagRows(db, image))), Texts(Ranking.Ranked(ByDate(), CommentRows(db, image))))
  }

  /** The same annotations: equal up to order. */
  ghost predicate SameBags(a: Source, b: Source) {
    multiset(a.tags) == multiset(b.tags) && multiset(a.comments) == multiset(b.comments)
  }

  // ----- The source is determined, up to order, by the facts -----

  function TextOfFact(): ((int, string)) -> seq<string> {
    (fact: (int, string)) => [fact.1]
  }

  function FactOf(row: Row): (int, string) {
    (row.id, row.text)
  }

  function FactList(rows: seq<Row>): seq<(int, string)> {
    if rows == [] then [] else [FactOf(rows[0])] + FactList(rows[1..])
  }

  ghost predicate IdsDistinct(rows: seq<Row>) {
    forall i, j | 0 <= i < j < |rows| :: rows[i].id != rows[j].id
  }

  lemma {:induction false} FactListShape(rows: seq<Row>)
    ensures |FactList(rows)| == |rows| && forall k | 0 <= k < |rows| :: FactList(rows)[k] == FactOf(rows[k])
    ensures BagOf(TextOfFact(), FactList(rows)) == multiset(Texts(rows))
  {
    if rows != [] {
      FactListShape(rows[1..]);
    }
  }

  lemma {:induction false} DistinctCount<T>(xs: seq<T>, x: T)
    requires Ranking.Distinct(xs)
    ensures multiset(xs)[x] == if x in xs then 1 else 0
  {
    if xs != [] {
      DistinctCount(xs[1..], x);
      assert xs == [xs[0]] + xs[1..];
    }
  }

  lemma SameTexts(a: seq<Row>, b: seq<Row>, facts: set<(int, string)>)
    requires IdsDistinct(a) && IdsDistinct(b)
    requires Ranking.Elements(FactList(a)) == facts == Ranking.Elements(FactList(b))
    ensures multiset(Texts(a)) == multiset(Texts(b))
  {
    FactListShape(a);
    FactListShape(b);
    assert Ranking.Distinct(FactList(a)) && Ranking.Distinct(FactList(b));
    forall x ensures multiset(FactList(a))[x] == multiset(FactList(b))[x] {
      DistinctCount(FactList(a), x);
      DistinctCount(FactList(b), x);
      assert x in FactList(a) <==> x in facts;
      assert x in FactList(b) <==> x in facts;
    }
    assert multiset(FactList(a)) == multiset(FactList(b));
    BagOrderFree(TextOfFact(), FactList(a), FactList(b));
  }

  lemma RankedRows(less: (Row, Row) -> bool, rows: set<Row>, facts: set<(int, string)>)
    requires Ranking.StrictTotal(less)
    requires forall x, y | x in rows && y in rows && x.id == y.id :: x == y
    requires facts == set x | x in rows :: FactOf(x)
    ensures IdsDistinct(Ranking.Ranked(less, rows))
    ensures Ranking.Elements(FactList(Ranking.Ranked(less, rows))) == facts
  {
    var xs := Ranking.Ranked(less, rows);
    Ranking.SortedDistinct(less, xs);
    assert forall k | 0 <= k < |xs| :: xs[k] in Ranking.Elements(xs);
    FactsListed(xs, rows, facts);
  }

  lemma FactsListed(xs: seq<Row>, rows: set<Row>, facts: set<(int, string)>)
    requires Ranking.Elements(xs) == rows && facts == set x | x in rows :: FactOf(x)
    ensures Ranking.Elements(FactList(xs)) == facts
  {
    FactListShape(xs);
    forall f | f in facts ensures f in FactList(xs) {
      var x :| x in rows && FactOf(x) == f;
      assert x in Ranking.Elements(xs);
      var k :| 0 <= k < |xs| && xs[k] == x;
      assert FactList(xs)[k] == f;
    }
    forall f | f in FactList(xs) ensures f in facts {
      var k :| 0 <= k < |xs| && FactList(xs)[k] == f;
      assert xs[k] in Ranking.Elements(xs);
    }
  }

  /** The filtered comment facts. */
  function Spoken(facts: Facts): set<(int, string)> {
    set f | f in facts.comments && NotBlank(f.1)
  }

  /** Equal facts give the same bags of tags and comments, whatever the dates. */
  lemma SourceFollowsFacts(a: Db, b: Db, image: int)
    requires FactsOf(a, image) == FactsOf(b, image)
    ensures SameBags(SourceOf(a, image), SourceOf(b, image))
  {
    ByNameTotal();
    ByDateTotal();
    SourceRows(a, image);
    SourceRows(b, image);
    SameTexts(Ranking.Ranked(ByName(), TagRows(a, image)), Ranking.Ranked(ByName(), TagRows(b, image)),
              FactsOf(a, image).tags);
    SameTexts(Ranking.Ranked(ByDate(), CommentRows(a, image)), Ranking.Ranked(ByDate(), CommentRows(b, image)),
              Spoken(FactsOf(a, image)));
  }

  lemma SourceRows(db: Db, image: int)
    requires Ranking.StrictTotal(ByName()) && Ranking.StrictTotal(ByDate())
    ensures IdsDistinct(Ranking.Ranked(ByName(), TagRows(db, image)))
    ensures Ranking.Elements(FactList(Ranking.Ranked(ByName(), TagRows(db, image)))) == FactsOf(db, image).tags
    ensures IdsDistinct(Ranking.Ranked(ByDate(), CommentRows(db, image)))
    ensures Ranking.Elements(FactList(Ranking.Ranked(ByDate(), CommentRows(db, image)))) == Spoken(FactsOf(db, image))
  {
    TagRowFacts(db, image);
    CommentRowFacts(db, image);
    RankedRows(ByName(), TagRows(db, image), FactsOf(db, image).tags);
    RankedRows(ByDate(), CommentRows(db, image), Spoken(FactsOf(db, image)));
  }

  lemma TagRowFacts(db: Db, image: int)
    ensures FactsOf(db, image).tags == set x | x in TagRows(db, image) :: FactOf(x)
  {
    forall f | f in FactsOf(db, image).tags ensures exists x :: x in TagRows(db, image) && FactOf(x) == f {
      var l :| l in db.links && db.links[l].image == image && f == (l, TagName(db, db.links[l].tag));
      assert FactOf(Row(l, 0, TagName(db, db.links[l].tag))) == f;
    }
  }

  lemma CommentRowFacts(db: Db, image: int)
    ensures Spoken(FactsOf(db, image)) == set x | x in CommentRows(db, image) :: FactOf(x)
  {
    forall f | f in Spoken(FactsOf(db, image)) ensures exists x :: x in CommentRows(db, image) && FactOf(x) == f {
      var m :| m in db.messages && db.messages[m].image == image && f == (m, db.messages[m].text);
      assert FactOf(Row(m, db.messages[m].date, db.messages[m].text)) == f;
    }
  }

  // ----- What the source of an image contains -----

  lemma {:induction false} TextsOf(rows: seq<Row>, text: string)
    ensures text in Texts(rows) <==> exists k :: 0 <= k < |rows| && rows[k].text == text
  {
    if rows != [] {
      TextsOf(rows[1..], text);
      if k :| 0 <= k < |rows| && rows[k].text == text { assert k > 0 ==> rows[1..][k - 1].text == text; }
      if k :| 0 <= k < |rows[1..]| && rows[1..][k].text == text { assert rows[k + 1].text == text; }
    }
  }

  lemma RankedTexts(less: (Row, Row) -> bool, rows: set<Row>, text: string)
    requires Ranking.StrictTotal(less)
    ensures text in Texts(Ranking.Ranked(less, rows)) <==> exists row :: row in rows && row.text == text
  {
    var xs := Ranking.Ranked(less, rows);
    TextsOf(xs, text);
    assert forall row :: row in Ranking.Elements(xs) <==> row in rows;
    if k :| 0 <= k < |xs| && xs[k].text == text { assert xs[k] in Ranking.Elements(xs); }
    if row :| row in rows && row.text == text {
      assert row in Ranking.Elements(xs);
      var k :| 0 <= k < |xs| && xs[k] == row;
    }
  }

  /** A worker reads the texts of exactly those messages of the image that hold a character other than a
      space, and the names of exactly the tags linked to it. */
  lemma SourceHolds(db: Db, image: int, text: string)
    ensures text in SourceOf(db, image).comments <==>
            exists m :: m in db.messages && db.messages[m].image == image && db.messages[m].text == text
                        && exists k :: 0 <= k < |text| && text[k] != ' '
    ensures text in SourceOf(db, image).tags <==>
            exists l :: l in db.links && db.links[l].image == image && TagName(db, db.links[l].tag) == text
  {
    ByNameTotal();
    ByDateTotal();
    RankedTexts(ByName(), TagRows(db, image), text);
    RankedTexts(ByDate(), CommentRows(db, image), text);
    CommentHeld(db, image, text);
    TagHeld(db, image, text);
  }

  lemma CommentHeld(db: Db, image: int, text: string)
    ensures (exists row :: row in CommentRows(db, image) && row.text == text) <==>
            exists m :: m in db.messages && db.messages[m].image == image && db.messages[m].text == text
                        && exists k :: 0 <= k < |text| && text[k] != ' '
  {
    if m :| m in db.messages && db.messages[m].image == image && db.messages[m].text == text && NotBlank(text) {
      assert Row(m, db.messages[m].date, db.messages[m].text) in CommentRows(db, image);
    }
  }

  lemma TagHeld(db: Db, image: int, text: string)
    ensures (exists row :: row in TagRows(db, image) && row.text == text) <==>
            exists l :: l in db.links && db.links[l].image == image && TagName(db, db.links[l].tag) == text
  {
    if l :| l in db.links && db.links[l].image == image && TagName(db, db.links[l].tag) == text {
      assert Row(l, 0, TagName(db, db.links[l].tag)) in TagRows(db, image);
    }
  }

  function IdsOf(rows: seq<Row>): (ids: seq<int>)
    ensures |ids| == |rows| && forall k | 0 <= k < |rows| :: ids[k] == rows[k].id
  {
    seq(|rows|, k requires 0 <= k < |rows| => rows[k].id)
  }

  lemma {:induction false} TextsAt(rows: seq<Row>)
    ensures |Texts(rows)| == |rows| && forall k | 0 <= k < |rows| :: Texts(rows)[k] == rows[k].text
  {
    if rows != [] { TextsAt(rows[1..]); }
  }

  lemma RankedAt(less: (Row, Row) -> bool, rows: set<Row>, xs: seq<Row>)
    requires Ranking.StrictTotal(less) && Ranking.Lists(less, xs, rows)
    ensures forall k | 0 <= k < |xs| :: xs[k] in rows
    ensures forall row | row in rows :: row in xs
    ensures forall j, k | 0 <= j < k < |xs| :: less(xs[j], xs[k])
  {
    assert forall k | 0 <= k < |xs| :: xs[k] in Ranking.Elements(xs);
    assert forall row | row in rows :: row in Ranking.Elements(xs);
  }

  /** A message of the image that holds a character other than a space; and a link of the image. */
  ghost predicate Speaks(db: Db, image: int, m: int) {
    && m in db.messages && db.messages[m].image == image
    && exists k :: 0 <= k < |db.messages[m].text| && db.messages[m].text[k] != ' '
  }

  ghost predicate Tags(db: Db, image: int, l: int) {
    l in db.links && db.links[l].image == image
  }

  ghost predicate Sooner(db: Db, a: int, b: int) {
    && a in db.messages && b in db.messages
    && (db.messages[a].date < db.messages[b].date || (db.messages[a].date == db.messages[b].date && a < b))
  }

  /** texts are those of the image's speaking messages, one for each, the oldest first and, of the same time, by
      ascending id. */
  ghost predicate SpokenInOrder(db: Db, image: int, ids: seq<int>, texts: seq<string>) {
    && |ids| == |texts|
    && (forall m :: m in ids <==> Speaks(db, image, m))
    && (forall k | 0 <= k < |ids| :: ids[k] in db.messages && texts[k] == db.messages[ids[k]].text)
    && (forall j, k | 0 <= j < k < |ids| :: Sooner(db, ids[j], ids[k]))
  }

  /** texts are the tag names of the image's links, one for each link, in ascending order. */
  ghost predicate TaggedInOrder(db: Db, image: int, ids: seq<int>, texts: seq<string>) {
    && |ids| == |texts|
    && (forall l :: l in ids <==> Tags(db, image, l))
    && (forall k | 0 <= k < |ids| :: ids[k] in db.links && texts[k] == TagName(db, db.links[ids[k]].tag))
    && (forall j, k | 0 <= j < k < |ids| :: ids[j] != ids[k] && !TextLess(texts[k], texts[j]))
  }

  lemma CommentsListed(db: Db, image: int, xs: seq<Row>)
    requires Ranking.StrictTotal(ByDate()) && Ranking.Lists(ByDate(), xs, CommentRows(db, image))
    ensures SpokenInOrder(db, image, IdsOf(xs), Texts(xs))
  {
    RankedAt(ByDate(), CommentRows(db, image), xs);
    TextsAt(xs);
    forall m | Speaks(db, image, m) ensures m in IdsOf(xs) {
      var row := Row(m, db.messages[m].date, db.messages[m].text);
      assert NotBlank(db.messages[m].text) && row in xs;
      var k :| 0 <= k < |xs| && xs[k] == row;
      assert IdsOf(xs)[k] == m;
    }
    forall j, k | 0 <= j < k < |xs| ensures Sooner(db, xs[j].id, xs[k].id) {
      assert xs[j].id != xs[k].id by { assert ByDate()(xs[j], xs[k]) && !ByDate()(xs[j], xs[j]); }
    }
  }

  lemma TagsListed(db: Db, image: int, xs: seq<Row>)
    requires Ranking.StrictTotal(ByName()) && Ranking.Lists(ByName(), xs, TagRows(db, image))
    ensures TaggedInOrder(db, image, IdsOf(xs), Texts(xs))
  {
    RankedAt(ByName(), TagRows(db, image), xs);
    TextsAt(xs);
    forall l | Tags(db, image, l) ensures l in IdsOf(xs) {
      var row := Row(l, 0, TagName(db, db.links[l].tag));
      assert row in xs;
      var k :| 0 <= k < |xs| && xs[k] == row;
      assert IdsOf(xs)[k] == l;
    }
    forall j, k | 0 <= j < k < |xs| ensures xs[j].id != xs[k].id && !TextLess(xs[k].text, xs[j].text) {
      assert ByName()(xs[j], xs[k]) && !ByName()(xs[j], xs[j]) && !ByName()(xs[k], xs[j]);
    }
  }

  /** The source of an image, row by row and in order. */
  lemma SourceInOrder(db: Db, image: int) returns (messages: seq<int>, links: seq<int>)
    ensures SpokenInOrder(db, image, messages, SourceOf(db, image).comments)
    ensures TaggedInOrder(db, image, links, SourceOf(db, image).tags)
  {
    ByNameTotal();
    ByDateTotal();
    var said, tagged := Ranking.Ranked(ByDate(), CommentRows(db, image)), Ranking.Ranked(ByName(), TagRows(db, image));
    CommentsListed(db, image, said);
    TagsListed(db, image, tagged);
    messages, links := IdsOf(said), IdsOf(tagged);
  }
}
