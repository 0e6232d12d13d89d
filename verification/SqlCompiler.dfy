/** The listing handler's query building: arguments appended as placeholders are handed out. */
module SqlCompiler {
  import opened Basics
  import opened SearchSyntax
  import opened SearchParser
  import opened SqlConditions

  const MAX_TAG_PARAMETER: nat := 100
  const MAX_LIMIT: nat := 100000

  /** The accumulated arguments of one query. */
  class Arguments {
    var values: seq<Value>

    constructor ()
      ensures values == []
    {
      values := [];
    }

    /** Appends an argument; the result is the number of its placeholder. */
    method Add(value: Value) returns (placeholder: nat)
      modifies this
      ensures values == old(values) + [value] && placeholder == |values|
    {
      values := values + [value];
      placeholder := |values|;
    }
  }

  method CompileLeaf(kind: Kind, value: string, arguments: Arguments) returns (sql: seq<Symbol>)
    modifies arguments
    ensures sql == Compiled(Leaf(kind, value), |old(arguments.values)|)
    ensures arguments.values == old(arguments.values) + [Str(value)]
  {
    var k := arguments.Add(Str(value));
    match kind
    case Text => sql := [LeftParen, Atom(NameLike(k)), OrWord, Atom(PathLike(k)), RightParen];
    case Tag => sql := [Atom(TagIs(k))];
    case Path => sql := [Atom(PathLike(k))];
    case Comment => sql := [Atom(CommentLike(k))];
  }

  method Compile(t: Node, arguments: Arguments) returns (sql: seq<Symbol>)
    modifies arguments
    ensures sql == Compiled(t, |old(arguments.values)|)
    ensures arguments.values == old(arguments.values) + LeafValues(t)
    decreases t, 1
  {
    match t
    case Leaf(kind, value) =>
      sql := CompileLeaf(kind, value, arguments);
    case Not(x) =>
      var inner := Compile(x, arguments);
      sql := [NotWord, LeftParen] + inner + [RightParen];
    case _ =>
      sql := CompilePair(t, arguments);
  }

  method CompilePair(t: Node, arguments: Arguments) returns (sql: seq<Symbol>)
    requires t.And? || t.Or?
    modifies arguments
    ensures sql == Compiled(t, |old(arguments.values)|)
    ensures arguments.values == old(arguments.values) + LeafValues(t)
    decreases t, 0
  {
    var left := Compile(t.left, arguments);
    var right := Compile(t.right, arguments);
    sql := [LeftParen] + left + [if t.And? then AndWord else OrWord] + right + [RightParen];
  }

  function Texts(filters: seq<Filter>): (texts: seq<seq<Symbol>>)
    ensures |texts| == |filters| && forall i | 0 <= i < |filters| :: texts[i] == filters[i].text
  {
    seq(|filters|, i requires 0 <= i < |filters| => filters[i].text)
  }

  /** strings.Join(filters, " AND ") after TRUE. */
  method JoinFilters(texts: seq<seq<Symbol>>, ghost filters: seq<Filter>) returns (where: seq<Symbol>)
    requires texts == Texts(filters)
    ensures where == [Atom(True)] + Joined(filters)
  {
    where := [];
    var i := |texts|;
    while i > 0
      invariant 0 <= i <= |texts| && where == Joined(filters[i..])
    {
      i := i - 1;
      where := [AndWord] + texts[i] + where;
      assert filters[i..][1..] == filters[i + 1..];
    }
    assert filters[0..] == filters;
    where := [Atom(True)] + where;
  }

  /** A prepared listing: the WHERE clause and the arguments of its page query, the last two being
      LIMIT and OFFSET. */
  datatype Prepared = Prepared(where: seq<Symbol>, arguments: seq<Value>)

  lemma TextsTogether(a: seq<Filter>, b: seq<Filter>, c: seq<Filter>, d: seq<Filter>)
    ensures Texts(a) + Texts(b) + Texts(c) + Texts(d) == Texts(a + b + c + d)
  {
  }

  method AddSearch(q: Listing, arguments: Arguments, texts: seq<seq<Symbol>>) returns (longer: seq<seq<Symbol>>)
    requires arguments.values == []
    modifies arguments
    ensures longer == texts + Texts(SearchFilter(q)) && arguments.values == SearchValues(q)
  {
    longer := texts;
    if q.search.Some? {
      var sql := Compile(q.search.value, arguments);
      longer := texts + [sql];
    }
  }

  method AddTag(u: Unicode, q: Listing, arguments: Arguments, texts: seq<seq<Symbol>>)
    returns (longer: seq<seq<Symbol>>)
    requires arguments.values == SearchValues(q)
    modifies arguments
    ensures longer == texts + Texts(TagFilter(q)) && arguments.values == SearchValues(q) + TagValues(u, q)
  {
    longer := texts;
    if q.tag != "" {
      var k := arguments.Add(Str(Normalize(u, q.tag)));
      longer := texts + [[Atom(TagIs(k))]];
    }
  }

  method AddFavorite(u: Unicode, q: Listing, arguments: Arguments, texts: seq<seq<Symbol>>)
    returns (longer: seq<seq<Symbol>>)
    requires arguments.values == SearchValues(q) + TagValues(u, q)
    modifies arguments
    ensures longer == texts + Texts(FavoriteFilter(u, q)) && arguments.values == ListingArguments(u, q)
  {
    longer := texts;
    if q.favorite {
      var k := arguments.Add(Num(q.userId));
      longer := texts + [[Atom(FavoriteOf(k))]];
    }
  }

  /** The filters of a request, with the arguments their placeholders name. */
  method BuildFilters(u: Unicode, q: Listing, arguments: Arguments) returns (where: seq<Symbol>)
    requires arguments.values == []
    modifies arguments
    ensures where == Where(u, q) && arguments.values == ListingArguments(u, q)
  {
    ghost var a, b, c, d := SearchFilter(q), TagFilter(q), UntaggedFilter(q), FavoriteFilter(u, q);
    var texts := AddSearch(q, arguments, []);
    texts := AddTag(u, q, arguments, texts);
    if q.untagged { texts := texts + [[NotWord, Atom(HasTag)]]; }
    assert texts == Texts(a) + Texts(b) + Texts(c);
    texts := AddFavorite(u, q, arguments, texts);
    TextsTogether(a, b, c, d);
    where := JoinFilters(texts, a + b + c + d);
  }

  /** The listing handler up to running its queries; None is its Invalid query answer. */
  method PrepareListing(u: Unicode, query: string, tag: string, untagged: bool, favorite: bool, userId: int, page: nat,
                        limit: nat)
    returns (r: Option<Prepared>)
    requires page >= 1 && limit >= 1
    ensures r.None? <==> Parse(u, query).None? || |tag| > 100
    ensures r.Some? ==>
      (var q := Listing(Parse(u, query).value, tag, untagged, favorite, userId);
       var size := Min(limit, 100000);
       r.value == Prepared(Where(u, q), ListingArguments(u, q) + [Num(size), Num((page - 1) * size)]))
  {
    var search := ParseImageSearch(u, query);
    if search.None? || |tag| > MAX_TAG_PARAMETER { return None; }
    var size := if limit > MAX_LIMIT then MAX_LIMIT else limit;
    var arguments := new Arguments();
    var where := BuildFilters(u, Listing(search.value, tag, untagged, favorite, userId), arguments);
    r := Some(Prepared(where, arguments.values + [Num(size), Num((page - 1) * size)]));
  }
}
