/** Compiling a search tree to a parameterised SQL condition, and reading the condition back. */
module SqlConditions {
  import opened Basics
  import opened LikePatterns
  import opened SearchSyntax
  import SearchBytes
  import SearchPrinter

  // ----- The emitted text, symbol by symbol -----

  datatype Value = Str(text: string) | Num(number: int)

  /** The tests the compiler writes; arg is the number of a $n placeholder. */
  datatype Test =
    | True
    | NameLike(arg: nat)
    | PathLike(arg: nat)
    | TagIs(arg: nat)
    | CommentLike(arg: nat)
    | HasTag
    | FavoriteOf(arg: nat)

  datatype Symbol = LeftParen | RightParen | AndWord | OrWord | NotWord | Atom(test: Test)

  /** The text for a node, when n arguments precede it. */
  function Compiled(t: Node, n: nat): seq<Symbol>
    decreases t
  {
    match t
    case Leaf(Text, _) => [LeftParen, Atom(NameLike(n + 1)), OrWord, Atom(PathLike(n + 1)), RightParen]
    case Leaf(Tag, _) => [Atom(TagIs(n + 1))]
    case Leaf(Path, _) => [Atom(PathLike(n + 1))]
    case Leaf(Comment, _) => [Atom(CommentLike(n + 1))]
    case Not(x) => [NotWord, LeftParen] + Compiled(x, n) + [RightParen]
    case And(l, r) => [LeftParen] + Compiled(l, n) + [AndWord] + Compiled(r, n + Leaves(l)) + [RightParen]
    case Or(l, r) => [LeftParen] + Compiled(l, n) + [OrWord] + Compiled(r, n + Leaves(l)) + [RightParen]
  }

  /** The values of a tree's leaves from left to right. */
  function LeafValues(t: Node): (values: seq<Value>)
    ensures |values| == Leaves(t)
  {
    match t
    case Leaf(_, value) => [Str(value)]
    case And(l, r) => LeafValues(l) + LeafValues(r)
    case Or(l, r) => LeafValues(l) + LeafValues(r)
    case Not(x) => LeafValues(x)
  }

  // ----- Reading a condition under SQL precedence: NOT over AND over OR -----

  datatype Cond = Holds(test: Test) | Neg(of: Cond) | Conj(left: Cond, right: Cond) | Disj(left: Cond, right: Cond)

  datatype Reading = Unreadable | Read(cond: Cond, rest: seq<Symbol>)

  function ReadOr(s: seq<Symbol>): (r: Reading)
    ensures r.Read? ==> |r.rest| < |s|
    decreases |s|, 3
  {
    match ReadAnd(s)
    case Unreadable => Unreadable
    case Read(c, rest) => ReadOrRest(c, rest)
  }

  function ReadOrRest(left: Cond, s: seq<Symbol>): (r: Reading)
    ensures r.Read? ==> |r.rest| <= |s|
    decreases |s|, 4
  {
    if s == [] || s[0] != OrWord then Read(left, s)
    else match ReadAnd(s[1..])
      case Unreadable => Unreadable
      case Read(c, rest) => ReadOrRest(Disj(left, c), rest)
  }

  function ReadAnd(s: seq<Symbol>): (r: Reading)
    ensures r.Read? ==> |r.rest| < |s|
    decreases |s|, 2
  {
    match ReadNot(s)
    case Unreadable => Unreadable
    case Read(c, rest) => ReadAndRest(c, rest)
  }

  function ReadAndRest(left: Cond, s: seq<Symbol>): (r: Reading)
    ensures r.Read? ==> |r.rest| <= |s|
    decreases |s|, 4
  {
    if s == [] || s[0] != AndWord then Read(left, s)
    else match ReadNot(s[1..])
      case Unreadable => Unreadable
      case Read(c, rest) => ReadAndRest(Conj(left, c), rest)
  }

  function ReadNot(s: seq<Symbol>): (r: Reading)
    ensures r.Read? ==> |r.rest| < |s|
    decreases |s|, 1
  {
    if s == [] then Unreadable
    else match s[0]
      case NotWord =>
        (match ReadNot(s[1..])
         case Unreadable => Unreadable
         case Read(c, rest) => Read(Neg(c), rest))
      case LeftParen =>
        (match ReadOr(s[1..])
         case Unreadable => Unreadable
         case Read(c, rest) => if rest != [] && rest[0] == RightParen then Read(c, rest[1..]) else Unreadable)
      case Atom(test) => Read(Holds(test), s[1..])
      case _ => Unreadable
  }

  /** A whole WHERE clause. */
  function ReadCondition(s: seq<Symbol>): Option<Cond> {
    match ReadOr(s)
    case Unreadable => None
    case Read(c, rest) => if rest == [] then Some(c) else None
  }

  /** Parentheses opened and not yet closed. */
  function Depth(s: seq<Symbol>): int {
    if s == [] then 0 else (if s[0] == LeftParen then 1 else if s[0] == RightParen then -1 else 0) + Depth(s[1..])
  }

  /** Whatever is read closes the parentheses it opens. */
  lemma {:induction false} ReadsBalanced(s: seq<Symbol>)
    ensures ReadOr(s).Read? ==> Depth(s) == Depth(ReadOr(s).rest)
    decreases |s|, 3
  {
    AndBalanced(s);
    if ReadAnd(s).Read? { OrRestBalanced(ReadAnd(s).cond, ReadAnd(s).rest); }
  }

  lemma {:induction false} OrRestBalanced(left: Cond, s: seq<Symbol>)
    ensures ReadOrRest(left, s).Read? ==> Depth(s) == Depth(ReadOrRest(left, s).rest)
    decreases |s|, 4
  {
    if s != [] && s[0] == OrWord {
      AndBalanced(s[1..]);
      var r := ReadAnd(s[1..]);
      if r.Read? { OrRestBalanced(Disj(left, r.cond), r.rest); }
    }
  }

  lemma {:induction false} AndBalanced(s: seq<Symbol>)
    ensures ReadAnd(s).Read? ==> Depth(s) == Depth(ReadAnd(s).rest)
    decreases |s|, 2
  {
    NotBalanced(s);
    if ReadNot(s).Read? { AndRestBalanced(ReadNot(s).cond, ReadNot(s).rest); }
  }

  lemma {:induction false} AndRestBalanced(left: Cond, s: seq<Symbol>)
    ensures ReadAndRest(left, s).Read? ==> Depth(s) == Depth(ReadAndRest(left, s).rest)
    decreases |s|, 4
  {
    if s != [] && s[0] == AndWord {
      NotBalanced(s[1..]);
      var r := ReadNot(s[1..]);
      if r.Read? { AndRestBalanced(Conj(left, r.cond), r.rest); }
    }
  }

  lemma {:induction false} NotBalanced(s: seq<Symbol>)
    ensures ReadNot(s).Read? ==> Depth(s) == Depth(ReadNot(s).rest)
    decreases |s|, 1
  {
    if s != [] {
      match s[0]
      case NotWord => NotBalanced(s[1..]);
      case LeftParen => ReadsBalanced(s[1..]);
      case _ =>
    }
  }

  // ----- What a condition says of an image -----

  /** An image with its tags, comments and the users who favour it; every column is NOT NULL. */
  datatype Image = Image(name: string, path: string, tags: set<string>, comments: set<string>, favoredBy: set<int>)

  function Fold(lower: string -> string, s: string): string {
    Replace(lower(s), '_', ' ')
  }

  predicate TestHolds(lower: string -> string, test: Test, args: seq<Value>, image: Image) {
    match test
    case True => true
    case HasTag => image.tags != {}
    case NameLike(k) => Bound(args, k) && Like(Fold(lower, image.name), Containing(args[k - 1].text))
    case PathLike(k) => Bound(args, k) && Like(Fold(lower, image.path), Containing(args[k - 1].text))
    case TagIs(k) => Bound(args, k) && exists t | t in image.tags :: Fold(lower, t) == args[k - 1].text
    case CommentLike(k) =>
      Bound(args, k) && exists c | c in image.comments :: Like(Fold(lower, c), Containing(args[k - 1].text))
    case FavoriteOf(k) => 1 <= k <= |args| && args[k - 1].Num? && args[k - 1].number in image.favoredBy
  }

  predicate Bound(args: seq<Value>, k: nat) {
    1 <= k <= |args| && args[k - 1].Str?
  }

  predicate Evaluate(lower: string -> string, c: Cond, args: seq<Value>, image: Image) {
    match c
    case Holds(test) => TestHolds(lower, test, args, image)
    case Neg(x) => !Evaluate(lower, x, args, image)
    case Conj(l, r) => Evaluate(lower, l, args, image) && Evaluate(lower, r, args, image)
    case Disj(l, r) => Evaluate(lower, l, args, image) || Evaluate(lower, r, args, image)
  }

  // ----- What a search tree says of an image -----

  /** folded is the text in lower case with underscores read as spaces. */
  ghost predicate Folds(lower: string -> string, text: string, folded: string) {
    && |folded| == |lower(text)|
    && forall i | 0 <= i < |folded| :: folded[i] == if lower(text)[i] == '_' then ' ' else lower(text)[i]
  }

  lemma FoldsOnce(lower: string -> string, text: string, folded: string)
    ensures Folds(lower, text, folded) <==> folded == Fold(lower, text)
  {
  }

  /** The folded text stands in a relation to a term. */
  ghost predicate TextMatches(lower: string -> string, within: (string, string) -> bool, text: string, value: string) {
    exists folded :: Folds(lower, text, folded) && within(folded, value)
  }

  lemma TextMatchesFold(lower: string -> string, within: (string, string) -> bool, text: string, value: string)
    ensures TextMatches(lower, within, text, value) <==> within(Fold(lower, text), value)
  {
    FoldsOnce(lower, text, Fold(lower, text));
    forall folded | Folds(lower, text, folded) ensures folded == Fold(lower, text) { FoldsOnce(lower, text, folded); }
  }

  /** Matching by a relation between a folded text and a term; a tag is the term. */
  ghost predicate LeafMatches(lower: string -> string, within: (string, string) -> bool, kind: Kind, value: string,
                              image: Image) {
    match kind
    case Text => TextMatches(lower, within, image.name, value) || TextMatches(lower, within, image.path, value)
    case Tag => exists t | t in image.tags :: Folds(lower, t, value)
    case Path => TextMatches(lower, within, image.path, value)
    case Comment => exists c | c in image.comments :: TextMatches(lower, within, c, value)
  }

  lemma LeafMatchesFold(lower: string -> string, within: (string, string) -> bool, kind: Kind, value: string,
                        image: Image)
    ensures LeafMatches(lower, within, kind, value, image) <==>
      match kind
      case Text => within(Fold(lower, image.name), value) || within(Fold(lower, image.path), value)
      case Tag => exists t | t in image.tags :: Fold(lower, t) == value
      case Path => within(Fold(lower, image.path), value)
      case Comment => exists c | c in image.comments :: within(Fold(lower, c), value)
  {
    TextMatchesFold(lower, within, image.name, value);
    TextMatchesFold(lower, within, image.path, value);
    forall t ensures Folds(lower, t, value) <==> Fold(lower, t) == value { FoldsOnce(lower, t, value); }
    forall c ensures TextMatches(lower, within, c, value) <==> within(Fold(lower, c), value) {
      TextMatchesFold(lower, within, c, value);
    }
  }

  ghost predicate Matches(lower: string -> string, within: (string, string) -> bool, t: Node, image: Image) {
    match t
    case Leaf(kind, value) => LeafMatches(lower, within, kind, value, image)
    case And(l, r) => Matches(lower, within, l, image) && Matches(lower, within, r, image)
    case Or(l, r) => Matches(lower, within, l, image) || Matches(lower, within, r, image)
    case Not(x) => !Matches(lower, within, x, image)
  }

  ghost function Occurrence(): (string, string) -> bool {
    (s: string, v: string) => Contains(s, v)
  }

  function Wildcards(): (string, string) -> bool {
    (s: string, v: string) => Like(s, Containing(v))
  }

  // ----- Compilation preserves meaning -----

  /** The condition a compiled node stands for. */
  function Meant(t: Node, n: nat): Cond
    decreases t
  {
    match t
    case Leaf(Text, _) => Disj(Holds(NameLike(n + 1)), Holds(PathLike(n + 1)))
    case Leaf(Tag, _) => Holds(TagIs(n + 1))
    case Leaf(Path, _) => Holds(PathLike(n + 1))
    case Leaf(Comment, _) => Holds(CommentLike(n + 1))
    case Not(x) => Neg(Meant(x, n))
    case And(l, r) => Conj(Meant(l, n), Meant(r, n + Leaves(l)))
    case Or(l, r) => Disj(Meant(l, n), Meant(r, n + Leaves(l)))
  }

  /** A parenthesised operand, a parenthesised pair, and a negation, read back. */
  lemma ReadsParens(s: seq<Symbol>, c: Cond, rest: seq<Symbol>)
    requires s != [] && s[0] == LeftParen && ReadOr(s[1..]) == Read(c, [RightParen] + rest)
    ensures ReadNot(s) == Read(c, rest)
  {
    assert ([RightParen] + rest)[1..] == rest;
  }

  lemma ReadsGroup(s: seq<Symbol>, c: Cond, rest: seq<Symbol>)
    requires ReadNot(s + ([RightParen] + rest)) == Read(c, [RightParen] + rest)
    ensures ReadNot([LeftParen] + s + [RightParen] + rest) == Read(c, rest)
  {
    var inner := s + ([RightParen] + rest);
    assert ([LeftParen] + s + [RightParen] + rest)[1..] == inner;
    assert ReadAnd(inner) == Read(c, [RightParen] + rest);
    assert ReadOrRest(c, [RightParen] + rest) == Read(c, [RightParen] + rest);
    ReadsParens([LeftParen] + s + [RightParen] + rest, c, rest);
  }

  lemma ReadsOr(s: seq<Symbol>, x: Cond, b: seq<Symbol>, y: Cond, rest: seq<Symbol>)
    requires ReadNot(s) == Read(x, [OrWord] + b) && ReadNot(b) == Read(y, [RightParen] + rest)
    ensures ReadOr(s) == Read(Disj(x, y), [RightParen] + rest)
  {
    assert ([OrWord] + b)[1..] == b;
    assert ReadAnd(b) == Read(y, [RightParen] + rest);
    assert ReadAnd(s) == Read(x, [OrWord] + b);
    assert ReadOrRest(Disj(x, y), [RightParen] + rest) == Read(Disj(x, y), [RightParen] + rest);
  }

  lemma ReadsAnd(s: seq<Symbol>, x: Cond, b: seq<Symbol>, y: Cond, rest: seq<Symbol>)
    requires ReadNot(s) == Read(x, [AndWord] + b) && ReadNot(b) == Read(y, [RightParen] + rest)
    ensures ReadOr(s) == Read(Conj(x, y), [RightParen] + rest)
  {
    assert ([AndWord] + b)[1..] == b;
    assert ReadAndRest(Conj(x, y), [RightParen] + rest) == Read(Conj(x, y), [RightParen] + rest);
    assert ReadAnd(s) == Read(Conj(x, y), [RightParen] + rest);
    assert ReadOrRest(Conj(x, y), [RightParen] + rest) == Read(Conj(x, y), [RightParen] + rest);
  }

  lemma PairShape(a: seq<Symbol>, word: Symbol, b: seq<Symbol>, rest: seq<Symbol>)
    ensures var last := b + ([RightParen] + rest);
      && [word] + b + [RightParen] + rest == [word] + last
      && ([LeftParen] + a + [word] + b + [RightParen] + rest)[1..] == a + ([word] + last)
  {
  }

  lemma ReadsWhole(s: seq<Symbol>, x: Cond, either: bool, last: seq<Symbol>, y: Cond, rest: seq<Symbol>)
    requires s != [] && s[0] == LeftParen
    requires ReadNot(s[1..]) == Read(x, [if either then OrWord else AndWord] + last)
    requires ReadNot(last) == Read(y, [RightParen] + rest)
    ensures ReadNot(s) == Read(if either then Disj(x, y) else Conj(x, y), rest)
  {
    if either { ReadsOr(s[1..], x, last, y, rest); } else { ReadsAnd(s[1..], x, last, y, rest); }
    ReadsParens(s, if either then Disj(x, y) else Conj(x, y), rest);
  }

  lemma ReadsPair(a: seq<Symbol>, x: Cond, either: bool, b: seq<Symbol>, y: Cond, rest: seq<Symbol>)
    requires var word := [if either then OrWord else AndWord];
      ReadNot(a + (word + b + [RightParen] + rest)) == Read(x, word + b + [RightParen] + rest)
    requires ReadNot(b + ([RightParen] + rest)) == Read(y, [RightParen] + rest)
    ensures var word := [if either then OrWord else AndWord];
      ReadNot([LeftParen] + a + word + b + [RightParen] + rest) == Read(if either then Disj(x, y) else Conj(x, y), rest)
  {
    var word := if either then OrWord else AndWord;
    PairShape(a, word, b, rest);
    ReadsWhole([LeftParen] + a + [word] + b + [RightParen] + rest, x, either, b + ([RightParen] + rest), y, rest);
  }

  lemma ReadsNeg(s: seq<Symbol>, c: Cond, rest: seq<Symbol>)
    requires ReadNot(s + ([RightParen] + rest)) == Read(c, [RightParen] + rest)
    ensures ReadNot([NotWord, LeftParen] + s + [RightParen] + rest) == Read(Neg(c), rest)
  {
    ReadsGroup(s, c, rest);
    assert ([NotWord, LeftParen] + s + [RightParen] + rest)[1..] == [LeftParen] + s + [RightParen] + rest;
  }

  lemma ReadsAtom(test: Test, rest: seq<Symbol>)
    ensures ReadNot([Atom(test)] + rest) == Read(Holds(test), rest)
  {
    assert ([Atom(test)] + rest)[1..] == rest;
  }

  /** The compiled text is read as one operand, whatever follows it. */
  lemma {:induction false} CompiledReads(t: Node, n: nat, rest: seq<Symbol>)
    ensures ReadNot(Compiled(t, n) + rest) == Read(Meant(t, n), rest)
    decreases t, 1
  {
    match t
    case Leaf(Text, _) =>
      var a, b := [Atom(NameLike(n + 1))], [Atom(PathLike(n + 1))];
      ReadsAtom(NameLike(n + 1), [OrWord] + b + [RightParen] + rest);
      ReadsAtom(PathLike(n + 1), [RightParen] + rest);
      ReadsPair(a, Holds(NameLike(n + 1)), true, b, Holds(PathLike(n + 1)), rest);
      assert Compiled(t, n) + rest == [LeftParen] + a + [OrWord] + b + [RightParen] + rest;
    case Leaf(Tag, _) => ReadsAtom(TagIs(n + 1), rest);
    case Leaf(Path, _) => ReadsAtom(PathLike(n + 1), rest);
    case Leaf(Comment, _) => ReadsAtom(CommentLike(n + 1), rest);
    case Not(x) =>
      CompiledReads(x, n, [RightParen] + rest);
      ReadsNeg(Compiled(x, n), Meant(x, n), rest);
    case _ => PairReads(t, n, rest);
  }

  lemma {:induction false} PairReads(t: Node, n: nat, rest: seq<Symbol>)
    requires t.And? || t.Or?
    ensures ReadNot(Compiled(t, n) + rest) == Read(Meant(t, n), rest)
    decreases t, 0
  {
    var l, r, word, k := t.left, t.right, [if t.Or? then OrWord else AndWord], n + Leaves(t.left);
    CompiledReads(r, k, [RightParen] + rest);
    CompiledReads(l, n, word + Compiled(r, k) + [RightParen] + rest);
    ReadsPair(Compiled(l, n), Meant(l, n), t.Or?, Compiled(r, k), Meant(r, k), rest);
  }

  /** With its own values bound after any earlier ones and before any later ones, a compiled
      condition holds of an image exactly when the tree matches it. */
  lemma {:induction false} ConditionMeans(lower: string -> string, t: Node, before: seq<Value>, after: seq<Value>,
                                          image: Image)
    ensures Evaluate(lower, Meant(t, |before|), before + LeafValues(t) + after, image) <==>
      Matches(lower, Wildcards(), t, image)
    decreases t, 1
  {
    match t
    case Leaf(kind, value) =>
      assert (before + LeafValues(t) + after)[|before|] == Str(value);
      LeafMatchesFold(lower, Wildcards(), kind, value, image);
    case Not(x) => ConditionMeans(lower, x, before, after, image);
    case _ => PairMeans(lower, t, before, after, image);
  }

  lemma ArgumentsSplit(before: seq<Value>, left: seq<Value>, right: seq<Value>, after: seq<Value>)
    ensures before + (left + right) + after == before + left + (right + after)
    ensures before + (left + right) + after == (before + left) + right + after
  {
  }

  lemma PairHolds(lower: string -> string, t: Node, n: nat, args: seq<Value>, image: Image)
    requires t.And? || t.Or?
    requires Evaluate(lower, Meant(t.left, n), args, image) <==> Matches(lower, Wildcards(), t.left, image)
    requires Evaluate(lower, Meant(t.right, n + Leaves(t.left)), args, image)
        <==> Matches(lower, Wildcards(), t.right, image)
    ensures Evaluate(lower, Meant(t, n), args, image) <==> Matches(lower, Wildcards(), t, image)
  {
  }

  lemma {:induction false} PairMeans(lower: string -> string, t: Node, before: seq<Value>, after: seq<Value>,
                                     image: Image)
    requires t.And? || t.Or?
    ensures Evaluate(lower, Meant(t, |before|), before + LeafValues(t) + after, image) <==>
      Matches(lower, Wildcards(), t, image)
    decreases t, 0
  {
    var l, r := t.left, t.right;
    var left, right := LeafValues(l), LeafValues(r);
    var args := before + (left + right) + after;
    ArgumentsSplit(before, left, right, after);
    ConditionMeans(lower, l, before, right + after, image);
    ConditionMeans(lower, r, before + left, after, image);
    PairHolds(lower, t, |before|, args, image);
  }

  ghost predicate HasLeaf(t: Node, kind: Kind, value: string) {
    match t
    case Leaf(k, v) => k == kind && v == value
    case And(l, r) => HasLeaf(l, kind, value) || HasLeaf(r, kind, value)
    case Or(l, r) => HasLeaf(l, kind, value) || HasLeaf(r, kind, value)
    case Not(x) => HasLeaf(x, kind, value)
  }

  lemma PlainLeafMatches(lower: string -> string, kind: Kind, value: string, image: Image)
    requires kind == Tag || PlainText(value)
    ensures LeafMatches(lower, Wildcards(), kind, value, image)
       <==> LeafMatches(lower, Occurrence(), kind, value, image)
  {
    LeafMatchesFold(lower, Wildcards(), kind, value, image);
    LeafMatchesFold(lower, Occurrence(), kind, value, image);
    if kind != Tag {
      LikeContaining(Fold(lower, image.name), value);
      LikeContaining(Fold(lower, image.path), value);
      forall c | c in image.comments
        ensures Like(Fold(lower, c), Containing(value)) <==> Contains(Fold(lower, c), value)
      {
        LikeContaining(Fold(lower, c), value);
      }
    }
  }

  /** For a tree whose texts, paths and comments have no LIKE wildcard or escape character, LIKE matching is
      containment. */
  lemma {:induction false} PlainMatches(lower: string -> string, t: Node, image: Image)
    requires forall kind, value | HasLeaf(t, kind, value) && kind != Tag ::
               '%' !in value && '_' !in value && '\\' !in value
    ensures Matches(lower, Wildcards(), t, image) <==> Matches(lower, Occurrence(), t, image)
  {
    match t
    case Leaf(kind, value) =>
      assert HasLeaf(t, kind, value);
      PlainLeafMatches(lower, kind, value, image);
    case Not(x) =>
      assert forall kind, value | HasLeaf(x, kind, value) :: HasLeaf(t, kind, value);
      PlainMatches(lower, x, image);
    case _ =>
      assert forall kind, value | HasLeaf(t.left, kind, value) || HasLeaf(t.right, kind, value) ::
          HasLeaf(t, kind, value);
      PlainMatches(lower, t.left, image);
      PlainMatches(lower, t.right, image);
  }

  /** A query whose percent sign is taken as a wildcard: `50%` is accepted as a term of text, and finds
      "50 cats", where the term does not occur. */
  lemma PercentParses(u: Unicode)
    requires TermValue(u, Text, "50%") == Some("50%")
    ensures Parse(u, "50%") == Some(Some(Leaf(Text, "50%")))
  {
    SearchPrinter.WordParses(u, "50%");
  }

  lemma PercentFinds(lower: string -> string, image: Image)
    requires image.name == "50 cats" && lower(image.name) == image.name
    ensures Matches(lower, Wildcards(), Leaf(Text, "50%"), image) && !Contains(Fold(lower, image.name), "50%")
  {
    PercentMatches();
    assert Containing("50%") == "%50%%";
    WildcardFinds(lower, "50%", image);
  }

  lemma WildcardFinds(lower: string -> string, value: string, image: Image)
    requires lower(image.name) == image.name && '_' !in image.name
    requires Like(image.name, Containing(value)) && !Contains(image.name, value)
    ensures Matches(lower, Wildcards(), Leaf(Text, value), image) && !Contains(Fold(lower, image.name), value)
  {
    FoldPlain(lower, image.name);
    TextLeafMatches(lower, value, image);
  }

  lemma {:induction false} FoldPlain(lower: string -> string, s: string)
    requires lower(s) == s && '_' !in s
    ensures Fold(lower, s) == s
  {
  }

  lemma TextLeafMatches(lower: string -> string, value: string, image: Image)
    ensures Like(Fold(lower, image.name), Containing(value)) ==> Matches(lower, Wildcards(), Leaf(Text, value), image)
  {
    LeafMatchesFold(lower, Wildcards(), Text, value, image);
  }

  // ----- The whole WHERE clause of a listing -----

  /** A listing request: the parsed query, the tag parameter, two flags and the user. */
  datatype Listing = Listing(search: Option<Node>, tag: string, untagged: bool, favorite: bool, userId: int)

  function SearchValues(q: Listing): seq<Value> {
    if q.search.Some? then LeafValues(q.search.value) else []
  }

  function TagValues(u: Unicode, q: Listing): seq<Value> {
    if q.tag != "" then [Str(Normalize(u, q.tag))] else []
  }

  function FavoriteValues(q: Listing): seq<Value> {
    if q.favorite then [Num(q.userId)] else []
  }

  function ListingArguments(u: Unicode, q: Listing): seq<Value> {
    SearchValues(q) + TagValues(u, q) + FavoriteValues(q)
  }

  /** The filters after TRUE, each with the condition it stands for. */
  datatype Filter = Filter(text: seq<Symbol>, cond: Cond)

  function SearchFilter(q: Listing): seq<Filter> {
    if q.search.Some? then [Filter(Compiled(q.search.value, 0), Meant(q.search.value, 0))] else []
  }

  function TagFilter(q: Listing): seq<Filter> {
    var k := |SearchValues(q)| + 1;
    if q.tag != "" then [Filter([Atom(TagIs(k))], Holds(TagIs(k)))] else []
  }

  function UntaggedFilter(q: Listing): seq<Filter> {
    if q.untagged then [Filter([NotWord, Atom(HasTag)], Neg(Holds(HasTag)))] else []
  }

  function FavoriteFilter(u: Unicode, q: Listing): seq<Filter> {
    var k := |SearchValues(q)| + |TagValues(u, q)| + 1;
    if q.favorite then [Filter([Atom(FavoriteOf(k))], Holds(FavoriteOf(k)))] else []
  }

  function Filters(u: Unicode, q: Listing): seq<Filter> {
    SearchFilter(q) + TagFilter(q) + UntaggedFilter(q) + FavoriteFilter(u, q)
  }

  function Joined(filters: seq<Filter>): seq<Symbol> {
    if filters == [] then [] else [AndWord] + filters[0].text + Joined(filters[1..])
  }

  function Where(u: Unicode, q: Listing): seq<Symbol> {
    [Atom(True)] + Joined(Filters(u, q))
  }

  function Conjunction(c: Cond, filters: seq<Filter>): Cond
    decreases filters
  {
    if filters == [] then c else Conjunction(Conj(c, filters[0].cond), filters[1..])
  }

  ghost predicate Reads(f: Filter) {
    forall rest :: ReadNot(f.text + rest) == Read(f.cond, rest)
  }

  lemma {:induction false} JoinedReads(c: Cond, filters: seq<Filter>)
    requires forall f | f in filters :: Reads(f)
    ensures ReadAndRest(c, Joined(filters)) == Read(Conjunction(c, filters), [])
    decreases filters
  {
    if filters != [] {
      var f, tail := filters[0], Joined(filters[1..]);
      assert Reads(f) && ReadNot(f.text + tail) == Read(f.cond, tail);
      assert ([AndWord] + f.text + tail)[1..] == f.text + tail;
      JoinedReads(Conj(c, f.cond), filters[1..]);
    }
  }

  lemma {:induction false} ConjunctionHolds(lower: string -> string, c: Cond, filters: seq<Filter>, args: seq<Value>,
                                            image: Image)
    ensures Evaluate(lower, Conjunction(c, filters), args, image)
       <==> Evaluate(lower, c, args, image) && forall f | f in filters :: Evaluate(lower, f.cond, args, image)
    decreases filters
  {
    if filters != [] { ConjunctionHolds(lower, Conj(c, filters[0].cond), filters[1..], args, image); }
  }

  lemma FiltersRead(u: Unicode, q: Listing)
    ensures forall f | f in Filters(u, q) :: Reads(f)
  {
    forall f | f in Filters(u, q) ensures Reads(f) {
      forall rest ensures ReadNot(f.text + rest) == Read(f.cond, rest) {
        if f in SearchFilter(q) {
          CompiledReads(q.search.value, 0, rest);
        } else if f in UntaggedFilter(q) {
          ReadsAtom(HasTag, rest);
          assert ([NotWord, Atom(HasTag)] + rest)[1..] == [Atom(HasTag)] + rest;
        } else {
          ReadsAtom(f.cond.test, rest);
        }
      }
    }
  }

  /** Some tag of the image is, folded, the tag parameter: trimmed, folded and with underscores as spaces. */
  ghost predicate TagChosen(u: Unicode, lower: string -> string, tag: string, image: Image) {
    exists spaced, t :: SearchBytes.Spaced(tag, spaced) && t in image.tags && Folds(lower, t, u.lower(u.trim(spaced)))
  }

  lemma TagChosenFold(u: Unicode, lower: string -> string, tag: string, image: Image)
    ensures TagChosen(u, lower, tag, image) <==> exists t | t in image.tags :: Fold(lower, t) == Normalize(u, tag)
  {
    var s := Replace(tag, '_', ' ');
    forall spaced ensures SearchBytes.Spaced(tag, spaced) <==> spaced == s { SearchBytes.SpacedOnce(tag, spaced); }
    forall t ensures Folds(lower, t, Normalize(u, tag)) <==> Fold(lower, t) == Normalize(u, tag) {
      FoldsOnce(lower, t, Normalize(u, tag));
    }
  }

  /** What a listing asks of an image. */
  ghost predicate Selects(u: Unicode, lower: string -> string, q: Listing, image: Image) {
    && (q.search.Some? ==> Matches(lower, Wildcards(), q.search.value, image))
    && (q.tag != "" ==> TagChosen(u, lower, q.tag, image))
    && (q.untagged ==> image.tags == {})
    && (q.favorite ==> q.userId in image.favoredBy)
  }

  /** Every filter holds; holds is what evaluates a condition. */
  ghost predicate AllHold(holds: Cond -> bool, filters: seq<Filter>) {
    forall f | f in filters :: holds(f.cond)
  }

  function Evaluator(lower: string -> string, args: seq<Value>, image: Image): Cond -> bool {
    (c: Cond) => Evaluate(lower, c, args, image)
  }

  lemma AllHoldTogether(holds: Cond -> bool, a: seq<Filter>, b: seq<Filter>, c: seq<Filter>, d: seq<Filter>)
    ensures AllHold(holds, a + b + c + d) <==>
      AllHold(holds, a) && AllHold(holds, b) && AllHold(holds, c) && AllHold(holds, d)
  {
    var all := a + b + c + d;
    assert forall f :: f in all <==> f in a || f in b || f in c || f in d;
  }

  lemma SearchSelects(lower: string -> string, q: Listing, after: seq<Value>, image: Image)
    ensures AllHold(Evaluator(lower, SearchValues(q) + after, image), SearchFilter(q))
       <==> (q.search.Some? ==> Matches(lower, Wildcards(), q.search.value, image))
  {
    if q.search.Some? {
      ConditionMeans(lower, q.search.value, [], after, image);
      assert [] + LeafValues(q.search.value) + after == SearchValues(q) + after;
      assert SearchFilter(q)[0] in SearchFilter(q);
    }
  }

  lemma TagSelects(u: Unicode, lower: string -> string, q: Listing, args: seq<Value>, image: Image)
    requires |SearchValues(q)| + |TagValues(u, q)| <= |args|
    requires args[|SearchValues(q)|..][..|TagValues(u, q)|] == TagValues(u, q)
    ensures AllHold(Evaluator(lower, args, image), TagFilter(q))
       <==> (q.tag != "" ==> TagChosen(u, lower, q.tag, image))
  {
    TagChosenFold(u, lower, q.tag, image);
    if q.tag != "" {
      assert args[|SearchValues(q)|] == TagValues(u, q)[0];
      assert TagFilter(q)[0] in TagFilter(q);
    }
  }

  lemma UntaggedSelects(lower: string -> string, q: Listing, args: seq<Value>, image: Image)
    ensures AllHold(Evaluator(lower, args, image), UntaggedFilter(q)) <==> (q.untagged ==> image.tags == {})
  {
    if q.untagged {
      assert Evaluate(lower, Holds(HasTag), args, image) <==> image.tags != {};
      assert UntaggedFilter(q)[0] in UntaggedFilter(q);
    }
  }

  lemma FavoriteSelects(u: Unicode, lower: string -> string, q: Listing, args: seq<Value>, image: Image)
    requires var n := |SearchValues(q)| + |TagValues(u, q)|;
      n + |FavoriteValues(q)| <= |args| && args[n..][..|FavoriteValues(q)|] == FavoriteValues(q)
    ensures AllHold(Evaluator(lower, args, image), FavoriteFilter(u, q)) <==>
      (q.favorite ==> q.userId in image.favoredBy)
  {
    if q.favorite {
      assert args[|SearchValues(q)| + |TagValues(u, q)|] == FavoriteValues(q)[0];
      assert FavoriteFilter(u, q)[0] in FavoriteFilter(u, q);
    }
  }

  lemma Pieces(a: seq<Value>, b: seq<Value>, c: seq<Value>, later: seq<Value>)
    ensures var args := a + b + c + later;
      args == a + (b + c + later) && args[|a|..][..|b|] == b && args[|a| + |b|..][..|c|] == c
  {
  }

  lemma FiltersSelect(u: Unicode, lower: string -> string, q: Listing, later: seq<Value>, image: Image)
    ensures AllHold(Evaluator(lower, ListingArguments(u, q) + later, image), Filters(u, q)) <==>
      Selects(u, lower, q, image)
  {
    var a, b, c, args := SearchValues(q), TagValues(u, q), FavoriteValues(q), ListingArguments(u, q) + later;
    Pieces(a, b, c, later);
    SearchSelects(lower, q, b + c + later, image);
    TagSelects(u, lower, q, args, image);
    UntaggedSelects(lower, q, args, image);
    FavoriteSelects(u, lower, q, args, image);
    AllHoldTogether(Evaluator(lower, args, image), SearchFilter(q), TagFilter(q), UntaggedFilter(q),
                    FavoriteFilter(u, q));
  }

  /** The WHERE clause of a listing, read under SQL precedence with $n bound to the n-th argument,
      selects exactly the images the request asks for; arguments appended later change nothing. */
  lemma WhereSelects(u: Unicode, lower: string -> string, q: Listing, later: seq<Value>, image: Image)
    ensures var c := ReadCondition(Where(u, q));
      c.Some? && (Evaluate(lower, c.value, ListingArguments(u, q) + later, image) <==> Selects(u, lower, q, image))
  {
    var filters := Filters(u, q);
    FiltersRead(u, q);
    JoinedReads(Holds(True), filters);
    ReadsAtom(True, Joined(filters));
    assert ReadOr(Where(u, q)) == Read(Conjunction(Holds(True), filters), []);
    ConjunctionHolds(lower, Holds(True), filters, ListingArguments(u, q) + later, image);
    FiltersSelect(u, lower, q, later, image);
  }
}
