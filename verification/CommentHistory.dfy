/** Paging through a user's comments by (date, id), newest first, while comments come and go. */
module CommentHistory {
  import opened Basics
  import opened CommentCursor
  import opened Calendar
  import opened Ranking

  const MAX_PAGE: nat := 100

  /** A comment's place in its author's history; ids are unique. */
  datatype Entry = Entry(date: Date, id: nat)

  type History = set<Entry>

  predicate Earlier(a: Date, b: Date) {
    if a.year != b.year then a.year < b.year
    else if a.month != b.month then a.month < b.month
    else if a.day != b.day then a.day < b.day
    else if a.hour != b.hour then a.hour < b.hour
    else if a.minute != b.minute then a.minute < b.minute
    else if a.second != b.second then a.second < b.second
    else a.nanos < b.nanos
  }

  /** (a.date, a.id) < (b.date, b.id). */
  predicate Older(a: Entry, b: Entry) {
    Earlier(a.date, b.date) || (a.date == b.date && a.id < b.id)
  }

  /** ORDER BY message_date DESC, id DESC. */
  function NewerFirst(): (Entry, Entry) -> bool {
    (a: Entry, b: Entry) => Older(b, a)
  }

  lemma EarlierOrders(a: Date, b: Date, c: Date)
    ensures !Earlier(a, a)
    ensures a != b ==> Earlier(a, b) || Earlier(b, a)
    ensures Earlier(a, b) && Earlier(b, c) ==> Earlier(a, c)
  {
  }

  lemma NewerFirstTotal()
    ensures StrictTotal(NewerFirst())
  {
    forall a: Entry, b: Entry, c: Entry
      ensures !Older(a, a) && (a != b ==> Older(a, b) || Older(b, a)) && (Older(a, b) && Older(b, c) ==> Older(a, c))
    {
      EarlierOrders(a.date, b.date, c.date);
    }
  }

  lemma EarlierAdvances(a: Date, b: Date)
    requires ValidDate(a) && ValidDate(b) && Earlier(a, b)
    ensures Instant(a) < Instant(b)
  {
    TimeWithin(a);
    TimeWithin(b);
    if a.year != b.year || a.month != b.month {
      DaysInOrder(a, b);
    }
  }

  /** Stored times are ordered as the instants they name. */
  lemma EarlierIsInstant(a: Date, b: Date)
    requires ValidDate(a) && ValidDate(b)
    ensures Earlier(a, b) <==> Instant(a) < Instant(b)
    ensures a == b <==> Instant(a) == Instant(b)
  {
    EarlierOrders(a, b, a);
    if Earlier(a, b) { EarlierAdvances(a, b); }
    if Earlier(b, a) { EarlierAdvances(b, a); }
  }

  // ----- One page -----

  function Remaining(h: History, before: Option<Entry>): set<Entry> {
    set e | e in h && (before.Some? ==> Older(e, before.value))
  }

  /** What the ORDER BY of the query lists. */
  type Lister = (History, Option<Entry>) -> seq<Entry>

  ghost predicate ListsAt(list: Lister, h: History, before: Option<Entry>) {
    Lists(NewerFirst(), list(h, before), Remaining(h, before))
  }

  /** The query lists what remains of a history, newest first; there is exactly one such listing. */
  ghost predicate Faithful(list: Lister) {
    forall h, before :: ListsAt(list, h, before)
  }

  lemma FaithfulUnique(list: Lister, other: Lister, h: History, before: Option<Entry>)
    requires Faithful(list) && Faithful(other)
    ensures list(h, before) == other(h, before)
  {
    NewerFirstTotal();
    assert ListsAt(list, h, before) && ListsAt(other, h, before);
    ListsUnique(NewerFirst(), list(h, before), other(h, before), Remaining(h, before));
  }

  lemma FaithfulExists() returns (list: Lister)
    ensures Faithful(list)
  {
    NewerFirstTotal();
    list := (h: History, before: Option<Entry>) => Ranked(NewerFirst(), Remaining(h, before));
    forall h, before ensures ListsAt(list, h, before) { }
  }

  /** The query with LIMIT n. */
  ghost function Query(list: Lister, h: History, before: Option<Entry>, n: nat): seq<Entry> {
    Take(n, list(h, before))
  }

  datatype Page = Page(items: seq<Entry>, next: Option<Entry>)

  ghost function PageOf(list: Lister, h: History, before: Option<Entry>, limit: nat): Page
    requires limit >= 1
  {
    var rows := Query(list, h, before, limit + 1);
    if |rows| > limit then Page(rows[..limit], Some(rows[limit - 1])) else Page(rows, None)
  }

  lemma PageIsPrefix(list: Lister, h: History, before: Option<Entry>, limit: nat)
    requires limit >= 1
    ensures var p, all := PageOf(list, h, before, limit), list(h, before);
      if |all| > limit then p.items == all[..limit] && p.next == Some(all[limit - 1])
      else p.items == all && p.next.None?
  {
  }

  // ----- A walk over changing histories -----

  /** The pages of a walk: what they list, how many they are, and whether the last had no cursor. */
  datatype Walked = Walked(items: seq<Entry>, pages: nat, finished: bool)

  /** The k-th request sees the k-th history. */
  ghost function Walk(list: Lister, hs: seq<History>, before: Option<Entry>, limit: nat): Walked
    requires limit >= 1
    decreases |hs|
  {
    if hs == [] then Walked([], 0, false)
    else
      var p := PageOf(list, hs[0], before, limit);
      if p.next.None? then Walked(p.items, 1, true)
      else
        var rest := Walk(list, hs[1..], p.next, limit);
        Walked(p.items + rest.items, rest.pages + 1, rest.finished)
  }

  ghost predicate AllBefore(items: seq<Entry>, before: Option<Entry>) {
    forall i | 0 <= i < |items| :: before.Some? ==> Older(items[i], before.value)
  }

  lemma PageDescends(list: Lister, h: History, before: Option<Entry>, limit: nat)
    requires Faithful(list) && limit >= 1
    ensures var p := PageOf(list, h, before, limit);
      Sorted(NewerFirst(), p.items) && AllBefore(p.items, before)
        && (p.next.Some? ==> p.items != [] && p.next.value == p.items[|p.items| - 1])
  {
    PageIsPrefix(list, h, before, limit);
    assert ListsAt(list, h, before);
    var all := list(h, before);
    forall i | 0 <= i < |all| ensures all[i] in Remaining(h, before) { assert all[i] in Elements(all); }
  }

  lemma Stacked(a: seq<Entry>, b: seq<Entry>)
    requires a != [] && Sorted(NewerFirst(), a) && Sorted(NewerFirst(), b) && AllBefore(b, Some(a[|a| - 1]))
    ensures Sorted(NewerFirst(), a + b)
  {
    NewerFirstTotal();
    var s, last := a + b, a[|a| - 1];
    forall i, j | 0 <= i < j < |s| ensures Older(s[j], s[i]) {
      if i < |a| <= j {
        assert Older(b[j - |a|], last);
        assert i < |a| - 1 ==> NewerFirst()(a[i], last);
        assert NewerFirst()(last, b[j - |a|]);
      } else if i >= |a| {
        assert NewerFirst()(b[i - |a|], b[j - |a|]);
      } else {
        assert NewerFirst()(a[i], a[j]);
      }
    }
  }

  /** Whatever is inserted or deleted between requests, a walk lists comments in strictly descending
      (date, id) order; so it lists none twice. */
  lemma {:induction false} WalkDescends(list: Lister, hs: seq<History>, before: Option<Entry>, limit: nat)
    requires Faithful(list) && limit >= 1
    ensures Sorted(NewerFirst(), Walk(list, hs, before, limit).items)
    ensures AllBefore(Walk(list, hs, before, limit).items, before)
    decreases |hs|
  {
    if hs != [] {
      var p := PageOf(list, hs[0], before, limit);
      PageDescends(list, hs[0], before, limit);
      if p.next.Some? {
        var rest := Walk(list, hs[1..], p.next, limit).items;
        WalkDescends(list, hs[1..], p.next, limit);
        Stacked(p.items, rest);
        NewerFirstTotal();
        forall i | 0 <= i < |rest| && before.Some? ensures Older(rest[i], before.value) {
          assert NewerFirst()(p.next.value, rest[i]) && NewerFirst()(before.value, p.next.value);
        }
      }
    }
  }

  ghost predicate ValidDates(h: History) {
    forall e | e in h :: ValidDate(e.date)
  }

  /** a is listed before b: at a later instant, or at the same one with a larger id. */
  ghost predicate ListedFirst(a: Entry, b: Entry) {
    && ValidDate(a.date) && ValidDate(b.date)
    && (Instant(a.date) > Instant(b.date) || (Instant(a.date) == Instant(b.date) && a.id > b.id))
  }

  /** In terms of instants: a walk lists the latest comments first. */
  lemma WalkGoesBack(list: Lister, hs: seq<History>, limit: nat, i: nat, j: nat)
    requires Faithful(list) && limit >= 1 && forall k | 0 <= k < |hs| :: ValidDates(hs[k])
    requires i < j < |Walk(list, hs, None, limit).items|
    ensures ListedFirst(Walk(list, hs, None, limit).items[i], Walk(list, hs, None, limit).items[j])
  {
    var items := Walk(list, hs, None, limit).items;
    WalkDescends(list, hs, None, limit);
    assert NewerFirst()(items[i], items[j]);
    var p := WalkSound(list, hs, None, limit, items[i]);
    var q := WalkSound(list, hs, None, limit, items[j]);
    EarlierIsInstant(items[j].date, items[i].date);
  }

  lemma NoneTwice(list: Lister, hs: seq<History>, limit: nat)
    requires Faithful(list) && limit >= 1
    ensures Distinct(Walk(list, hs, None, limit).items)
  {
    WalkDescends(list, hs, None, limit);
    NewerFirstTotal();
    SortedDistinct(NewerFirst(), Walk(list, hs, None, limit).items);
  }

  /** A comment in the page's history is on the page, or is left for the pages after its cursor. */
  lemma OnPageOrAfter(list: Lister, h: History, before: Option<Entry>, limit: nat, e: Entry)
    requires Faithful(list) && limit >= 1 && e in Remaining(h, before)
    ensures var p := PageOf(list, h, before, limit);
      e in p.items || (p.next.Some? && Older(e, p.next.value))
  {
    PageIsPrefix(list, h, before, limit);
    assert ListsAt(list, h, before);
    var all := list(h, before);
    assert e in Elements(all);
    var k :| 0 <= k < |all| && all[k] == e;
    if k >= limit {
      assert NewerFirst()(all[limit - 1], all[k]);
    } else {
      assert |all| > limit ==> all[..limit][k] == e;
    }
  }

  /** A finished walk lists every comment that was there at each of its requests. */
  lemma {:induction false} WalkComplete(list: Lister, hs: seq<History>, before: Option<Entry>, limit: nat, e: Entry)
    requires Faithful(list) && limit >= 1 && Walk(list, hs, before, limit).finished
    requires (before.Some? ==> Older(e, before.value))
    requires forall k | 0 <= k < |hs| && k < Walk(list, hs, before, limit).pages :: e in hs[k]
    ensures e in Walk(list, hs, before, limit).items
    decreases |hs|
  {
    var p := PageOf(list, hs[0], before, limit);
    OnPageOrAfter(list, hs[0], before, limit, e);
    if e !in p.items {
      assert forall k | 0 <= k < |hs[1..]| :: hs[1..][k] == hs[k + 1];
      WalkComplete(list, hs[1..], p.next, limit, e);
    }
  }

  /** And nothing else: what is listed was in the history of one of the requests. */
  lemma {:induction false} WalkSound(list: Lister, hs: seq<History>, before: Option<Entry>, limit: nat, e: Entry)
    returns (k: nat)
    requires Faithful(list) && limit >= 1 && e in Walk(list, hs, before, limit).items
    ensures k < |hs| && e in hs[k]
    decreases |hs|
  {
    var p := PageOf(list, hs[0], before, limit);
    PageIsPrefix(list, hs[0], before, limit);
    if e in p.items {
      assert ListsAt(list, hs[0], before);
      assert e in Elements(list(hs[0], before));
      k := 0;
    } else {
      var j := WalkSound(list, hs[1..], p.next, limit, e);
      k := j + 1;
    }
  }

  // ----- A history that stays the same -----

  function Still(h: History, n: nat): seq<History> {
    seq(n, i => h)
  }

  lemma RestOfListing(list: Lister, h: History, before: Option<Entry>, limit: nat)
    requires Faithful(list) && 1 <= limit < |list(h, before)|
    ensures list(h, Some(list(h, before)[limit - 1])) == list(h, before)[limit..]
  {
    var all := list(h, before);
    var last, rest := all[limit - 1], all[limit..];
    assert ListsAt(list, h, before);
    assert ListsAt(list, h, Some(last));
    NewerFirstTotal();
    forall e ensures e in Elements(rest) <==> e in Remaining(h, Some(last)) {
      if e in Elements(rest) {
        var k :| 0 <= k < |rest| && rest[k] == e;
        assert NewerFirst()(last, all[limit + k]);
        assert all[limit + k] in Elements(all);
      }
      if e in Remaining(h, Some(last)) {
        assert last in Elements(all);
        assert before.Some? ==> NewerFirst()(before.value, last) && NewerFirst()(last, e);
        assert e in Remaining(h, before);
        assert e in Elements(all);
        var k :| 0 <= k < |all| && all[k] == e;
        SortedIndex(NewerFirst(), all, limit - 1, k);
        assert rest[k - limit] == e;
      }
    }
    assert Elements(rest) == Remaining(h, Some(last));
    ListsUnique(NewerFirst(), list(h, Some(last)), rest, Remaining(h, Some(last)));
  }

  /** Over an unchanged history the walk ends, after at most one page a comment, and has listed the
      whole history newest first. */
  lemma {:induction false} StillWalk(list: Lister, h: History, before: Option<Entry>, limit: nat, n: nat)
    requires Faithful(list) && limit >= 1 && n >= 1 && n >= |list(h, before)|
    ensures var w := Walk(list, Still(h, n), before, limit);
      w.finished && w.items == list(h, before) && w.pages <= n
    decreases n
  {
    var all, hs := list(h, before), Still(h, n);
    PageIsPrefix(list, h, before, limit);
    if |all| > limit {
      RestOfListing(list, h, before, limit);
      StillWalk(list, h, Some(all[limit - 1]), limit, n - 1);
      assert hs[1..] == Still(h, n - 1);
      assert all[..limit] + all[limit..] == all;
    }
  }

  // ----- Through the text of the cursors -----

  /** A comment whose cursor can be read back: see CommentCursor.CursorRoundTrip. */
  predicate Citable(e: Entry) {
    ValidDate(e.date) && 0 <= e.date.year <= 9999 && 1 <= e.id < 0x8000_0000
  }

  ghost predicate CitableHistory(h: History) {
    forall e | e in h :: Citable(e)
  }

  /** Where a request's cursor parameter starts; None is the Invalid comment cursor answer. */
  function Start(cursor: string): Option<Option<Entry>> {
    if cursor == "" then Some(None)
    else match ParseCursor(cursor)
      case None => None
      case Some((date, id)) => if id < 1 then None else Some(Some(Entry(date, id)))
  }

  /** The cursor a page carries to the next request; every stored date is valid. */
  function CursorText(next: Option<Entry>): string {
    if next.None? || !ValidDate(next.value.date) then "" else MakeCursor(next.value.date, next.value.id)
  }

  /** Writing positions and reading them back. */
  datatype Codec = Codec(write: Option<Entry> -> string, read: string -> Option<Option<Entry>>)

  function CursorCodec(): Codec {
    Codec((next: Option<Entry>) => CursorText(next), (cursor: string) => Start(cursor))
  }

  ghost predicate RoundTrips(codec: Codec) {
    forall next: Option<Entry> | next.Some? ==> Citable(next.value) :: codec.read(codec.write(next)) == Some(next)
  }

  lemma CursorsRoundTrip()
    ensures RoundTrips(CursorCodec())
  {
    forall next: Option<Entry> | next.Some? ==> Citable(next.value) ensures Start(CursorText(next)) == Some(next) {
      if next.Some? {
        CursorRoundTrip(next.value.date, next.value.id);
        PlainBytes(next.value.date, next.value.id);
        EncodedLength(Plain(next.value.date, next.value.id));
      }
    }
  }

  /** The citable comments are exactly those whose own cursor is accepted and leads back to them; no cursor of
      more than 100 bytes is accepted. */
  lemma CitableIff(e: Entry, cursor: string)
    requires ValidDate(e.date) && 1 <= e.id < 0x8000_0000
    ensures Citable(e) <==> Start(MakeCursor(e.date, e.id)) == Some(Some(e))
    ensures Citable(e) <==> Start(MakeCursor(e.date, e.id)).Some?
    ensures |cursor| > 100 ==> Start(cursor) == None
  {
    CursorRoundTrip(e.date, e.id);
    PlainBytes(e.date, e.id);
    EncodedLength(Plain(e.date, e.id));
  }

  /** A client that follows next_cursor from a given cursor; None if a request is refused. */
  ghost function Follow(codec: Codec, list: Lister, hs: seq<History>, cursor: string, limit: nat): Option<Walked>
    requires limit >= 1
    decreases |hs|
  {
    if hs == [] then Some(Walked([], 0, false))
    else
      match codec.read(cursor)
      case None => None
      case Some(before) =>
        var p := PageOf(list, hs[0], before, limit);
        if p.next.None? then Some(Walked(p.items, 1, true))
        else
          match Follow(codec, list, hs[1..], codec.write(p.next), limit)
          case None => None
          case Some(rest) => Some(Walked(p.items + rest.items, rest.pages + 1, rest.finished))
  }

  lemma PageCitable(list: Lister, h: History, before: Option<Entry>, limit: nat)
    requires Faithful(list) && limit >= 1 && CitableHistory(h)
    ensures PageOf(list, h, before, limit).next.Some? ==> Citable(PageOf(list, h, before, limit).next.value)
  {
    PageIsPrefix(list, h, before, limit);
    assert ListsAt(list, h, before);
    var all := list(h, before);
    if |all| > limit { assert all[limit - 1] in Elements(all); }
  }

  /** Following the encoded cursors is the walk: no request is refused, no position is lost. */
  lemma {:induction false} FollowIsWalk(codec: Codec, list: Lister, hs: seq<History>, before: Option<Entry>, limit: nat)
    requires RoundTrips(codec) && Faithful(list) && limit >= 1 && (before.Some? ==> Citable(before.value))
    requires forall k | 0 <= k < |hs| :: CitableHistory(hs[k])
    ensures Follow(codec, list, hs, codec.write(before), limit) == Some(Walk(list, hs, before, limit))
    decreases |hs|
  {
    if hs != [] {
      PageCitable(list, hs[0], before, limit);
      var p := PageOf(list, hs[0], before, limit);
      if p.next.Some? { FollowIsWalk(codec, list, hs[1..], p.next, limit); }
    }
  }

  /** Following next_cursor from the empty cursor to its end lists each comment that was there
      throughout exactly once, newest first. */
  lemma HistoryOnce(list: Lister, hs: seq<History>, limit: nat, e: Entry)
    requires Faithful(list) && limit >= 1 && forall k | 0 <= k < |hs| :: CitableHistory(hs[k])
    requires Walk(list, hs, None, limit).finished && forall k | 0 <= k < |hs| :: e in hs[k]
    ensures var w := Follow(CursorCodec(), list, hs, "", limit);
      && w.Some? && w.value.finished && e in w.value.items && Sorted(NewerFirst(), w.value.items)
      && Distinct(w.value.items)
  {
    CursorsRoundTrip();
    FollowIsWalk(CursorCodec(), list, hs, None, limit);
    assert CursorCodec().write(None) == "";
    WalkComplete(list, hs, None, limit, e);
    WalkDescends(list, hs, None, limit);
    NoneTwice(list, hs, limit);
  }

  // ----- The handler -----

  datatype Reply = Refused(status: int) | Served(items: seq<Entry>, nextCursor: string, limit: nat)

  /** The rows scanned, cut to the limit when there was one more. */
  method ScanPage(ghost list: Lister, ghost h: History, ghost before: Option<Entry>, limit: nat, rows: seq<Entry>)
    returns (page: Page)
    requires limit >= 1 && rows == Query(list, h, before, limit + 1)
    ensures page == PageOf(list, h, before, limit)
  {
    var items: seq<Entry> := [];
    var i := 0;
    while i < |rows|
      invariant 0 <= i <= |rows| && items == rows[..i]
    {
      items := items + [rows[i]];
      i := i + 1;
    }
    assert items == rows;
    if |items| <= limit { return Page(items, None); }
    items := items[..limit];
    page := Page(items, Some(items[|items| - 1]));
  }

  /** userComments; requested is the limit parameter after its default, rows what the query returns. */
  method UserComments(ghost list: Lister, userExists: bool, requested: nat, cursor: string, ghost h: History,
                      rows: seq<Entry>) returns (r: Reply)
    requires requested >= 1
    requires Start(cursor).Some? ==> rows == Query(list, h, Start(cursor).value, Min(requested, 100) + 1)
    ensures r == (if Start(cursor).None? then Refused(422) else if !userExists then Refused(404)
                  else
                    var p := PageOf(list, h, Start(cursor).value, Min(requested, 100));
                    Served(p.items, CursorText(p.next), Min(requested, 100)))
  {
    var limit: nat := if requested > MAX_PAGE then MAX_PAGE else requested;
    var start := Start(cursor);
    if start.None? { return Refused(422); }
    if !userExists { return Refused(404); }
    var page := ScanPage(list, h, start.value, limit, rows);
    r := Served(page.items, CursorText(page.next), limit);
  }
}
