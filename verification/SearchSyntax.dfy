/** The image search language: tokens, grammar, and the recursive-descent parse of tokens.

    A query is a string of bytes, one char per byte. Case folding, trimming, field splitting
    and control characters come from a table given as a parameter. */
module SearchSyntax {
  import opened Basics

  const MAX_QUERY: nat := 1000
  const MAX_TERM: nat := 100
  const MAX_TERMS: nat := 20

  datatype Kind = Text | Tag | Path | Comment

  datatype Node =
    | Leaf(kind: Kind, value: string)
    | And(left: Node, right: Node)
    | Or(left: Node, right: Node)
    | Not(term: Node)

  datatype Unicode = Unicode(lower: string -> string, trim: string -> string, fields: string -> seq<string>,
                             hasControl: string -> bool)

  // ----- Terms -----

  function Replace(s: string, from: char, to: char): (r: string)
    ensures |r| == |s| && forall i | 0 <= i < |s| :: r[i] == if s[i] == from then to else s[i]
  {
    if s == [] then [] else [if s[0] == from then to else s[0]] + Replace(s[1..], from, to)
  }

  function Normalize(u: Unicode, raw: string): string {
    u.lower(u.trim(Replace(raw, '_', ' ')))
  }

  function CleanTag(u: Unicode, value: string): Option<string> {
    var tag := u.lower(Join(" ", u.fields(value)));
    if tag == "" || |tag| > MAX_TERM || '/' in tag || '\\' in tag || u.hasControl(tag) then None else Some(tag)
  }

  function BoundedTerm(u: Unicode, raw: string): Option<string> {
    var term := Normalize(u, raw);
    if term == "" || |term| > MAX_TERM then None else Some(term)
  }

  /** The value of a term written as raw. */
  function TermValue(u: Unicode, kind: Kind, raw: string): Option<string> {
    if kind == Tag then CleanTag(u, Normalize(u, raw)) else BoundedTerm(u, raw)
  }

  // ----- Tokens -----

  datatype Token = Open | Close | Bar | Plus | Bang | Term(kind: Kind, value: string) | Bad

  /** unicode.IsSpace of a single byte taken as a code point. */
  predicate IsSpace(c: char) {
    9 <= c as int <= 13 || c == ' ' || c as int == 0x85 || c as int == 0xA0
  }

  predicate Delimiter(c: char) {
    IsSpace(c) || c in "!#+|()"
  }

  /** Bytes before the next delimiter. */
  function WordLength(s: string): (n: nat)
    ensures n <= |s| && (forall i | 0 <= i < n :: !Delimiter(s[i])) && (n < |s| ==> Delimiter(s[n]))
  {
    if s == [] || Delimiter(s[0]) then 0 else 1 + WordLength(s[1..])
  }

  function IndexOf(s: string, c: char): (n: nat)
    ensures n <= |s| && (forall i | 0 <= i < n :: s[i] != c) && (n < |s| ==> s[n] == c)
  {
    if s == [] || s[0] == c then 0 else 1 + IndexOf(s[1..], c)
  }

  function TermToken(u: Unicode, kind: Kind, raw: string, rest: seq<Token>): seq<Token> {
    match TermValue(u, kind, raw)
    case None => [Bad]
    case Some(value) => [Term(kind, value)] + rest
  }

  /** The tokens of a byte string; everything after an invalid term is one Bad token. */
  function Lex(u: Unicode, s: string): seq<Token>
    decreases |s|
  {
    if s == [] then []
    else if IsSpace(s[0]) then Lex(u, s[1..])
    else if s[0] == '(' then [Open] + Lex(u, s[1..])
    else if s[0] == ')' then [Close] + Lex(u, s[1..])
    else if s[0] == '|' then [Bar] + Lex(u, s[1..])
    else if s[0] == '+' then [Plus] + Lex(u, s[1..])
    else if s[0] == '!' then [Bang] + Lex(u, s[1..])
    else if s[0] == '#' then
      var n := WordLength(s[1..]);
      TermToken(u, Tag, s[1..][..n], Lex(u, s[1..][n..]))
    else if s[0] == '[' || s[0] == '\'' then
      var n := IndexOf(s[1..], if s[0] == '[' then ']' else '\'');
      if n == |s| - 1 then [Bad]
      else TermToken(u, if s[0] == '[' then Comment else Path, s[1..][..n], Lex(u, s[1..][n + 1..]))
    else
      var n := WordLength(s);
      TermToken(u, Text, s[..n], Lex(u, s[n..]))
  }

  /** The scanner as a function value, so that a lemma sees only what it is told of it. */
  function Scanner(u: Unicode): string -> seq<Token> {
    (s: string) => Lex(u, s)
  }

  /** What a scanner does at a '#', and at an opening quote. */
  ghost predicate AtTag(u: Unicode, lex: string -> seq<Token>, s: string)
    requires s != ""
  {
    var n := WordLength(s[1..]);
    lex(s) == TermToken(u, Tag, s[1..][..n], lex(s[1..][n..]))
  }

  ghost predicate AtQuote(u: Unicode, lex: string -> seq<Token>, s: string, kind: Kind, close: char)
    requires s != ""
  {
    var n := IndexOf(s[1..], close);
    n < |s| - 1 ==> lex(s) == TermToken(u, kind, s[1..][..n], lex(s[1..][n + 1..]))
  }

  lemma ScansTag(u: Unicode, s: string)
    requires s != "" && s[0] == '#'
    ensures AtTag(u, Scanner(u), s)
  {
  }

  lemma ScansQuote(u: Unicode, s: string)
    requires s != "" && (s[0] == '[' || s[0] == '\'')
    ensures AtQuote(u, Scanner(u), s, if s[0] == '[' then Comment else Path, if s[0] == '[' then ']' else '\'')
  {
  }

  // ----- The grammar -----

  predicate Negatable(t: Node) {
    t.Leaf? && t.kind != Text
  }

  /** Derivations of the grammar
        or      := and | or '|' and
        and     := unary | and unary | and '+' unary
        unary   := primary | '!' primary        (the negated primary is a tag, comment or path)
        primary := term | '(' or ')'  */
  datatype OrD = OneAnd(only: AndD) | Alt(left: OrD, right: AndD)
  datatype AndD = OneUnary(only: UnaryD) | Both(left: AndD, plus: bool, right: UnaryD)
  datatype UnaryD = Plain(primary: PrimaryD) | Negated(primary: PrimaryD)
  datatype PrimaryD = Single(kind: Kind, value: string) | Group(inner: OrD)

  /** The tokens a derivation spells. */
  function YieldOr(d: OrD): seq<Token> {
    match d
    case OneAnd(a) => YieldAnd(a)
    case Alt(l, r) => YieldOr(l) + [Bar] + YieldAnd(r)
  }

  function PlusTokens(plus: bool): seq<Token> {
    if plus then [Plus] else []
  }

  function YieldAnd(d: AndD): seq<Token> {
    match d
    case OneUnary(x) => YieldUnary(x)
    case Both(l, plus, r) => YieldAnd(l) + PlusTokens(plus) + YieldUnary(r)
  }

  function YieldUnary(d: UnaryD): seq<Token> {
    match d
    case Plain(x) => YieldPrimary(x)
    case Negated(x) => [Bang] + YieldPrimary(x)
  }

  function YieldPrimary(d: PrimaryD): seq<Token> {
    match d
    case Single(kind, value) => [Term(kind, value)]
    case Group(inner) => [Open] + YieldOr(inner) + [Close]
  }

  /** The search tree a derivation denotes. */
  function TreeOr(d: OrD): Node {
    match d
    case OneAnd(a) => TreeAnd(a)
    case Alt(l, r) => Or(TreeOr(l), TreeAnd(r))
  }

  function TreeAnd(d: AndD): Node {
    match d
    case OneUnary(x) => TreeUnary(x)
    case Both(l, _, r) => And(TreeAnd(l), TreeUnary(r))
  }

  function TreeUnary(d: UnaryD): Node {
    match d
    case Plain(x) => TreePrimary(x)
    case Negated(x) => Not(TreePrimary(x))
  }

  function TreePrimary(d: PrimaryD): Node {
    match d
    case Single(kind, value) => Leaf(kind, value)
    case Group(inner) => TreeOr(inner)
  }

  /** Every negation is over a tag, comment or path. */
  predicate GoodOr(d: OrD) {
    match d
    case OneAnd(a) => GoodAnd(a)
    case Alt(l, r) => GoodOr(l) && GoodAnd(r)
  }

  predicate GoodAnd(d: AndD) {
    match d
    case OneUnary(x) => GoodUnary(x)
    case Both(l, _, r) => GoodAnd(l) && GoodUnary(r)
  }

  predicate GoodUnary(d: UnaryD) {
    GoodPrimary(d.primary) && (d.Negated? ==> Negatable(TreePrimary(d.primary)))
  }

  predicate GoodPrimary(d: PrimaryD) {
    match d
    case Single(_, _) => true
    case Group(inner) => GoodOr(inner)
  }

  ghost predicate Derives(ts: seq<Token>, t: Node) {
    exists d :: GoodOr(d) && YieldOr(d) == ts && TreeOr(d) == t
  }

  function Leaves(t: Node): nat {
    match t
    case Leaf(_, _) => 1
    case And(l, r) => Leaves(l) + Leaves(r)
    case Or(l, r) => Leaves(l) + Leaves(r)
    case Not(x) => Leaves(x)
  }

  // ----- Recursive descent over tokens -----

  datatype Parsed = Fail | Done(node: Node, rest: seq<Token>, terms: nat)

  function POr(ts: seq<Token>, terms: nat): (p: Parsed)
    ensures p.Done? ==> |p.rest| < |ts|
    decreases |ts|, 3
  {
    match PAnd(ts, terms)
    case Fail => Fail
    case Done(left, rest, n) => POrRest(left, rest, n)
  }

  function POrRest(left: Node, ts: seq<Token>, terms: nat): (p: Parsed)
    ensures p.Done? ==> |p.rest| <= |ts|
    decreases |ts|, 4
  {
    if ts == [] || ts[0] != Bar then Done(left, ts, terms)
    else
      match PAnd(ts[1..], terms)
      case Fail => Fail
      case Done(right, rest, n) => POrRest(Or(left, right), rest, n)
  }

  function PAnd(ts: seq<Token>, terms: nat): (p: Parsed)
    ensures p.Done? ==> |p.rest| < |ts|
    decreases |ts|, 2
  {
    match PUnary(ts, terms)
    case Fail => Fail
    case Done(left, rest, n) => PAndRest(left, rest, n)
  }

  function PAndRest(left: Node, ts: seq<Token>, terms: nat): (p: Parsed)
    ensures p.Done? ==> |p.rest| <= |ts|
    decreases |ts|, 4
  {
    if ts == [] || ts[0] == Bar || ts[0] == Close then Done(left, ts, terms)
    else
      match PUnary(if ts[0] == Plus then ts[1..] else ts, terms)
      case Fail => Fail
      case Done(right, rest, n) => PAndRest(And(left, right), rest, n)
  }

  function PUnary(ts: seq<Token>, terms: nat): (p: Parsed)
    ensures p.Done? ==> |p.rest| < |ts|
    decreases |ts|, 1
  {
    if ts != [] && ts[0] == Bang then
      match PPrimary(ts[1..], terms)
      case Fail => Fail
      case Done(t, rest, n) => if Negatable(t) then Done(Not(t), rest, n) else Fail
    else PPrimary(ts, terms)
  }

  function PPrimary(ts: seq<Token>, terms: nat): (p: Parsed)
    ensures p.Done? ==> |p.rest| < |ts|
    decreases |ts|, 0
  {
    if ts == [] then Fail
    else match ts[0]
      case Open =>
        (match POr(ts[1..], terms)
         case Fail => Fail
         case Done(t, rest, n) => if rest != [] && rest[0] == Close then Done(t, rest[1..], n) else Fail)
      case Term(kind, value) => if terms + 1 > MAX_TERMS then Fail else Done(Leaf(kind, value), ts[1..], terms + 1)
      case _ => Fail
  }

  /** A whole query: None when rejected, Some(None) when blank. */
  function Parse(u: Unicode, query: string): Option<Option<Node>> {
    var ts := Lex(u, query);
    if |query| > MAX_QUERY then None
    else if ts == [] then Some(None)
    else match POr(ts, 0)
      case Fail => None
      case Done(t, rest, _) => if rest == [] then Some(Some(t)) else None
  }

  // ----- Soundness: what the parser accepts, the grammar derives -----

  lemma {:induction false} POrSound(ts: seq<Token>, terms: nat) returns (d: OrD)
    requires POr(ts, terms).Done?
    ensures var p := POr(ts, terms);
      GoodOr(d) && ts == YieldOr(d) + p.rest && TreeOr(d) == p.node && p.terms == terms + Leaves(p.node) <= MAX_TERMS
    decreases |ts|, 3
  {
    var p := PAnd(ts, terms);
    var a := PAndSound(ts, terms);
    d := POrRestSound(OneAnd(a), p.rest, p.terms);
  }

  lemma {:induction false} POrRestSound(left: OrD, ts: seq<Token>, terms: nat) returns (d: OrD)
    requires GoodOr(left) && POrRest(TreeOr(left), ts, terms).Done? && terms <= MAX_TERMS
    ensures var p := POrRest(TreeOr(left), ts, terms);
      GoodOr(d) && YieldOr(left) + ts == YieldOr(d) + p.rest && TreeOr(d) == p.node
      && p.terms + Leaves(TreeOr(left)) == terms + Leaves(p.node) && p.terms <= MAX_TERMS
    decreases |ts|, 4
  {
    if ts == [] || ts[0] != Bar {
      d := left;
    } else {
      var p := PAnd(ts[1..], terms);
      var a := PAndSound(ts[1..], terms);
      d := POrRestSound(Alt(left, a), p.rest, p.terms);
      assert YieldOr(left) + ts == YieldOr(Alt(left, a)) + p.rest;
    }
  }

  lemma {:induction false} PAndSound(ts: seq<Token>, terms: nat) returns (d: AndD)
    requires PAnd(ts, terms).Done?
    ensures var p := PAnd(ts, terms);
      GoodAnd(d) && ts == YieldAnd(d) + p.rest && TreeAnd(d) == p.node && p.terms == terms + Leaves(p.node) <= MAX_TERMS
    decreases |ts|, 2
  {
    var p := PUnary(ts, terms);
    var a := PUnarySound(ts, terms);
    d := PAndRestSound(OneUnary(a), p.rest, p.terms);
  }

  lemma Regroup(before: seq<Token>, plus: seq<Token>, a: seq<Token>, rest: seq<Token>, ts: seq<Token>)
    requires |ts| >= |plus| && ts[..|plus|] == plus && ts[|plus|..] == a + rest
    ensures before + ts == before + plus + a + rest
  {
    assert ts == plus + (a + rest);
  }

  lemma {:induction false} PAndRestSound(left: AndD, ts: seq<Token>, terms: nat) returns (d: AndD)
    requires GoodAnd(left) && PAndRest(TreeAnd(left), ts, terms).Done? && terms <= MAX_TERMS
    ensures var p := PAndRest(TreeAnd(left), ts, terms);
      GoodAnd(d) && YieldAnd(left) + ts == YieldAnd(d) + p.rest && TreeAnd(d) == p.node
      && p.terms + Leaves(TreeAnd(left)) == terms + Leaves(p.node) && p.terms <= MAX_TERMS
    decreases |ts|, 4
  {
    if ts == [] || ts[0] == Bar || ts[0] == Close {
      d := left;
    } else {
      var plus := ts[0] == Plus;
      var tail := if plus then ts[1..] else ts;
      var p := PUnary(tail, terms);
      var a := PUnarySound(tail, terms);
      d := PAndRestSound(Both(left, plus, a), p.rest, p.terms);
      Regroup(YieldAnd(left), PlusTokens(plus), YieldUnary(a), p.rest, ts);
    }
  }

  lemma {:induction false} PUnarySound(ts: seq<Token>, terms: nat) returns (d: UnaryD)
    requires PUnary(ts, terms).Done?
    ensures var p := PUnary(ts, terms);
      GoodUnary(d) && ts == YieldUnary(d) + p.rest && TreeUnary(d) == p.node
        && p.terms == terms + Leaves(p.node) <= MAX_TERMS
    decreases |ts|, 1
  {
    if ts != [] && ts[0] == Bang {
      var a := PPrimarySound(ts[1..], terms);
      d := Negated(a);
    } else {
      var a := PPrimarySound(ts, terms);
      d := Plain(a);
    }
  }

  lemma {:induction false} PPrimarySound(ts: seq<Token>, terms: nat) returns (d: PrimaryD)
    requires PPrimary(ts, terms).Done?
    ensures var p := PPrimary(ts, terms);
      GoodPrimary(d) && ts == YieldPrimary(d) + p.rest && TreePrimary(d) == p.node
        && p.terms == terms + Leaves(p.node) <= MAX_TERMS
    decreases |ts|, 0
  {
    if ts[0] == Open {
      var inner := POr(ts[1..], terms);
      var a := POrSound(ts[1..], terms);
      d := Group(a);
      assert inner.rest == [Close] + inner.rest[1..];
    } else {
      d := Single(ts[0].kind, ts[0].value);
    }
  }

  // ----- Completeness: what the grammar derives, the parser accepts -----

  lemma {:induction false} UnaryStart(d: UnaryD)
    ensures var ts := YieldUnary(d); ts != [] && ts[0] != Bar && ts[0] != Close && ts[0] != Plus
    ensures var ts := YieldPrimary(d.primary); ts != [] && ts[0] != Bang
  {
  }

  /** One more operand of an or, and of an and. */
  lemma OrStep(left: Node, right: Node, b: seq<Token>, rest: seq<Token>, n: nat, k: nat)
    requires PAnd(b + rest, n) == Done(right, rest, k)
    ensures POrRest(left, [Bar] + b + rest, n) == POrRest(Or(left, right), rest, k)
  {
    assert ([Bar] + b + rest)[1..] == b + rest;
  }

  lemma AndStep(left: Node, right: Node, plus: bool, b: seq<Token>, rest: seq<Token>, n: nat, k: nat)
    requires PUnary(b + rest, n) == Done(right, rest, k)
    requires b != [] && b[0] != Bar && b[0] != Close && b[0] != Plus
    ensures PAndRest(left, PlusTokens(plus) + b + rest, n) == PAndRest(And(left, right), rest, k)
  {
    assert ([Plus] + b + rest)[1..] == b + rest;
    assert [] + b + rest == b + rest;
  }

  lemma Associate(a: seq<Token>, b: seq<Token>, c: seq<Token>, rest: seq<Token>)
    ensures a + b + c + rest == a + (b + c + rest)
  {
  }

  lemma OrJoin(left: Node, right: Node, a: seq<Token>, b: seq<Token>, rest: seq<Token>, terms: nat, n: nat, k: nat)
    requires PAnd(b + rest, n) == Done(right, rest, k)
    requires POr(a + ([Bar] + b + rest), terms) == POrRest(left, [Bar] + b + rest, n)
    ensures POr(a + [Bar] + b + rest, terms) == POrRest(Or(left, right), rest, k)
  {
    OrStep(left, right, b, rest, n, k);
    Associate(a, [Bar], b, rest);
  }

  lemma AndJoin(left: Node, right: Node, plus: bool, a: seq<Token>, b: seq<Token>, rest: seq<Token>,
                terms: nat, n: nat, k: nat)
    requires PUnary(b + rest, n) == Done(right, rest, k)
    requires b != [] && b[0] != Bar && b[0] != Close && b[0] != Plus
    requires PAnd(a + (PlusTokens(plus) + b + rest), terms) == PAndRest(left, PlusTokens(plus) + b + rest, n)
    ensures PAnd(a + PlusTokens(plus) + b + rest, terms) == PAndRest(And(left, right), rest, k)
  {
    AndStep(left, right, plus, b, rest, n, k);
    Associate(a, PlusTokens(plus), b, rest);
  }

  lemma {:induction false} POrComplete(d: OrD, rest: seq<Token>, terms: nat)
    requires GoodOr(d) && (rest == [] || rest[0] == Bar || rest[0] == Close) && terms + Leaves(TreeOr(d)) <= MAX_TERMS
    ensures POr(YieldOr(d) + rest, terms) == POrRest(TreeOr(d), rest, terms + Leaves(TreeOr(d)))
  {
    match d
    case OneAnd(a) =>
      PAndComplete(a, rest, terms);
    case Alt(l, r) =>
      var n := terms + Leaves(TreeOr(l));
      PAndComplete(r, rest, n);
      POrComplete(l, [Bar] + YieldAnd(r) + rest, terms);
      OrJoin(TreeOr(l), TreeAnd(r), YieldOr(l), YieldAnd(r), rest, terms, n, n + Leaves(TreeAnd(r)));
  }

  lemma {:induction false} PAndComplete(d: AndD, rest: seq<Token>, terms: nat)
    requires GoodAnd(d) && terms + Leaves(TreeAnd(d)) <= MAX_TERMS
    ensures PAnd(YieldAnd(d) + rest, terms) == PAndRest(TreeAnd(d), rest, terms + Leaves(TreeAnd(d)))
  {
    match d
    case OneUnary(x) =>
      PUnaryComplete(x, rest, terms);
    case Both(l, plus, r) =>
      var n := terms + Leaves(TreeAnd(l));
      UnaryStart(r);
      PUnaryComplete(r, rest, n);
      PAndComplete(l, PlusTokens(plus) + YieldUnary(r) + rest, terms);
      AndJoin(TreeAnd(l), TreeUnary(r), plus, YieldAnd(l), YieldUnary(r), rest, terms, n, n + Leaves(TreeUnary(r)));
  }

  lemma {:induction false} PUnaryComplete(d: UnaryD, rest: seq<Token>, terms: nat)
    requires GoodUnary(d) && terms + Leaves(TreeUnary(d)) <= MAX_TERMS
    ensures PUnary(YieldUnary(d) + rest, terms) == Done(TreeUnary(d), rest, terms + Leaves(TreeUnary(d)))
  {
    UnaryStart(d);
    PPrimaryComplete(d.primary, rest, terms);
    if d.Negated? {
      assert (YieldUnary(d) + rest)[1..] == YieldPrimary(d.primary) + rest;
    }
  }

  lemma {:induction false} PPrimaryComplete(d: PrimaryD, rest: seq<Token>, terms: nat)
    requires GoodPrimary(d) && terms + Leaves(TreePrimary(d)) <= MAX_TERMS
    ensures PPrimary(YieldPrimary(d) + rest, terms) == Done(TreePrimary(d), rest, terms + Leaves(TreePrimary(d)))
  {
    match d
    case Single(_, _) =>
      assert (YieldPrimary(d) + rest)[1..] == rest;
    case Group(inner) =>
      POrComplete(inner, [Close] + rest, terms);
      assert (YieldPrimary(d) + rest)[1..] == YieldOr(inner) + ([Close] + rest);
      assert ([Close] + rest)[1..] == rest;
  }

  /** A query is accepted exactly when its tokens derive from the grammar, within the limits, and
      the answer is the derived tree; so the grammar is unambiguous. */
  lemma AcceptedIffDerives(u: Unicode, query: string, t: Node)
    ensures Parse(u, query) == Some(Some(t)) <==>
      |query| <= 1000 && Derives(Lex(u, query), t) && Leaves(t) <= 20
  {
    var ts := Lex(u, query);
    if Parse(u, query) == Some(Some(t)) {
      var d := POrSound(ts, 0);
      assert YieldOr(d) + [] == YieldOr(d);
    }
    if |query| <= 1000 && Derives(ts, t) && Leaves(t) <= 20 {
      var d :| GoodOr(d) && YieldOr(d) == ts && TreeOr(d) == t;
      POrComplete(d, [], 0);
      assert ts + [] == ts;
      assert POr([], 0) == Fail;
    }
  }

  // ----- What accepted trees look like -----

  /** Negation only over tags, comments and paths; terms non-empty, at most 100 bytes, and the
      normal form of something that was typed. */
  ghost predicate Proper(u: Unicode, t: Node) {
    match t
    case Leaf(kind, value) => 0 < |value| <= 100 && exists raw :: TermValue(u, kind, raw) == Some(value)
    case And(l, r) => Proper(u, l) && Proper(u, r)
    case Or(l, r) => Proper(u, l) && Proper(u, r)
    case Not(x) => x.Leaf? && (x.kind == Tag || x.kind == Path || x.kind == Comment) && Proper(u, x)
  }

  ghost predicate ProperTokens(u: Unicode, ts: seq<Token>) {
    forall k | 0 <= k < |ts| && ts[k].Term? :: Proper(u, Leaf(ts[k].kind, ts[k].value))
  }

  lemma TermProper(u: Unicode, kind: Kind, raw: string, rest: seq<Token>)
    requires ProperTokens(u, rest)
    ensures ProperTokens(u, TermToken(u, kind, raw, rest))
  {
    var ts := TermToken(u, kind, raw, rest);
    forall k | 0 <= k < |ts| && ts[k].Term? ensures Proper(u, Leaf(ts[k].kind, ts[k].value)) {
      if k > 0 { assert ts[k] == rest[k - 1]; }
    }
  }

  lemma {:induction false} LexProper(u: Unicode, s: string)
    ensures ProperTokens(u, Lex(u, s))
    decreases |s|
  {
    if s != [] {
      if IsSpace(s[0]) || s[0] in "()|+!" {
        LexProper(u, s[1..]);
      } else if s[0] == '#' {
        var n := WordLength(s[1..]);
        LexProper(u, s[1..][n..]);
        TermProper(u, Tag, s[1..][..n], Lex(u, s[1..][n..]));
      } else if s[0] == '[' || s[0] == '\'' {
        var n := IndexOf(s[1..], if s[0] == '[' then ']' else '\'');
        if n < |s| - 1 {
          LexProper(u, s[1..][n + 1..]);
          TermProper(u, if s[0] == '[' then Comment else Path, s[1..][..n], Lex(u, s[1..][n + 1..]));
        }
      } else {
        var n := WordLength(s);
        LexProper(u, s[n..]);
        TermProper(u, Text, s[..n], Lex(u, s[n..]));
      }
    }
  }

  lemma {:induction false} DerivedProper(u: Unicode, d: OrD)
    requires GoodOr(d) && ProperTokens(u, YieldOr(d))
    ensures Proper(u, TreeOr(d))
  {
    match d
    case OneAnd(a) => DerivedAndProper(u, a);
    case Alt(l, r) =>
      var ts := YieldOr(d);
      assert forall k | 0 <= k < |YieldOr(l)| :: ts[k] == YieldOr(l)[k];
      assert forall k | 0 <= k < |YieldAnd(r)| :: ts[|YieldOr(l)| + 1 + k] == YieldAnd(r)[k];
      DerivedProper(u, l);
      DerivedAndProper(u, r);
  }

  lemma {:induction false} DerivedAndProper(u: Unicode, d: AndD)
    requires GoodAnd(d) && ProperTokens(u, YieldAnd(d))
    ensures Proper(u, TreeAnd(d))
  {
    match d
    case OneUnary(x) => DerivedUnaryProper(u, x);
    case Both(l, plus, r) =>
      var ts, j := YieldAnd(d), |YieldAnd(l)| + if plus then 1 else 0;
      assert forall k | 0 <= k < |YieldAnd(l)| :: ts[k] == YieldAnd(l)[k];
      assert forall k | 0 <= k < |YieldUnary(r)| :: ts[j + k] == YieldUnary(r)[k];
      DerivedAndProper(u, l);
      DerivedUnaryProper(u, r);
  }

  lemma {:induction false} DerivedUnaryProper(u: Unicode, d: UnaryD)
    requires GoodUnary(d) && ProperTokens(u, YieldUnary(d))
    ensures Proper(u, TreeUnary(d))
  {
    var ts, j := YieldUnary(d), if d.Negated? then 1 else 0;
    assert forall k | 0 <= k < |YieldPrimary(d.primary)| :: ts[j + k] == YieldPrimary(d.primary)[k];
    DerivedPrimaryProper(u, d.primary);
  }

  lemma {:induction false} DerivedPrimaryProper(u: Unicode, d: PrimaryD)
    requires GoodPrimary(d) && ProperTokens(u, YieldPrimary(d))
    ensures Proper(u, TreePrimary(d))
  {
    match d
    case Single(kind, value) => assert YieldPrimary(d)[0] == Term(kind, value);
    case Group(inner) =>
      assert forall k | 0 <= k < |YieldOr(inner)| :: YieldPrimary(d)[1 + k] == YieldOr(inner)[k];
      DerivedProper(u, inner);
  }

  /** Every accepted query yields a tree of at most 20 proper terms. */
  lemma AcceptedIsProper(u: Unicode, query: string, t: Node)
    requires Parse(u, query) == Some(Some(t))
    ensures Proper(u, t) && Leaves(t) <= 20
  {
    AcceptedIffDerives(u, query, t);
    var d :| GoodOr(d) && YieldOr(d) == Lex(u, query) && TreeOr(d) == t;
    LexProper(u, query);
    DerivedProper(u, d);
  }
}
