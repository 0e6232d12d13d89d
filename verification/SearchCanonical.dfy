/** Printed queries are canonical: no query for the same tree has fewer groups, and every accepted
    tree whose terms can be written is printed and read back. */
module SearchCanonical {
  import opened Basics
  import opened SearchSyntax
  import opened SearchPrinter

  // ----- Groups -----

  function GroupsOr(d: OrD): nat {
    match d
    case OneAnd(a) => GroupsAnd(a)
    case Alt(l, r) => GroupsOr(l) + GroupsAnd(r)
  }

  function GroupsAnd(d: AndD): nat {
    match d
    case OneUnary(x) => GroupsPrimary(x.primary)
    case Both(l, _, r) => GroupsAnd(l) + GroupsPrimary(r.primary)
  }

  function GroupsPrimary(d: PrimaryD): nat {
    match d
    case Single(_, _) => 0
    case Group(inner) => 1 + GroupsOr(inner)
  }

  /** The opening parentheses of a query, outside quotes. */
  function Opens(ts: seq<Token>): nat {
    if ts == [] then 0 else (if ts[0] == Open then 1 else 0) + Opens(ts[1..])
  }

  lemma {:induction false} OpensAppend(a: seq<Token>, b: seq<Token>)
    ensures Opens(a + b) == Opens(a) + Opens(b)
  {
    if a == [] {
      assert a + b == b;
    } else {
      assert (a + b)[1..] == a[1..] + b;
      OpensAppend(a[1..], b);
    }
  }

  lemma {:induction false} OpensOr(d: OrD)
    ensures Opens(YieldOr(d)) == GroupsOr(d)
  {
    match d
    case OneAnd(a) => OpensAnd(a);
    case Alt(l, r) =>
      OpensOr(l);
      OpensAnd(r);
      OpensAppend(YieldOr(l), [Bar]);
      OpensAppend(YieldOr(l) + [Bar], YieldAnd(r));
      assert [Bar][1..] == [];
  }

  lemma {:induction false} OpensAnd(d: AndD)
    ensures Opens(YieldAnd(d)) == GroupsAnd(d)
  {
    match d
    case OneUnary(x) => OpensUnary(x);
    case Both(l, plus, r) =>
      OpensAnd(l);
      OpensUnary(r);
      OpensAppend(YieldAnd(l), PlusTokens(plus));
      OpensAppend(YieldAnd(l) + PlusTokens(plus), YieldUnary(r));
      assert [Plus][1..] == [];
  }

  lemma {:induction false} OpensUnary(d: UnaryD)
    ensures Opens(YieldUnary(d)) == GroupsPrimary(d.primary)
  {
    OpensPrimary(d.primary);
    if d.Negated? {
      OpensAppend([Bang], YieldPrimary(d.primary));
      assert [Bang][1..] == [];
    }
  }

  lemma {:induction false} OpensPrimary(d: PrimaryD)
    ensures Opens(YieldPrimary(d)) == GroupsPrimary(d)
  {
    match d
    case Single(kind, value) => assert [Term(kind, value)][1..] == [];
    case Group(inner) =>
      OpensOr(inner);
      OpensAppend([Open], YieldOr(inner));
      OpensAppend([Open] + YieldOr(inner), [Close]);
      assert [Open][1..] == [] && [Close][1..] == [];
  }

  // ----- Printing needs the fewest groups -----

  /** The groups printed for a tree as an operand of nothing, of OR, and of AND or a group. */
  function PrintedOr(t: Node): nat {
    GroupsOr(DeriveOr(t))
  }

  function PrintedAnd(t: Node): nat {
    GroupsAnd(DeriveAnd(t))
  }

  function PrintedUnary(t: Node): nat {
    GroupsPrimary(DeriveUnary(t).primary)
  }

  /** A tighter context costs at most the one group. */
  lemma ContextCost(t: Node)
    ensures PrintedOr(t) <= PrintedAnd(t) <= PrintedUnary(t) <= PrintedOr(t) + 1
  {
    match t
    case Leaf(_, _) =>
    case Not(_) =>
      assert PrintedAnd(t) == PrintedUnary(t) && PrintedOr(t) == PrintedAnd(t);
    case And(l, r) =>
      var d := Both(DeriveAnd(l), true, DeriveUnary(r));
      assert DeriveAnd(t) == d && GroupsOr(OneAnd(d)) == GroupsAnd(d);
      assert DeriveUnary(t) == Plain(Group(OneAnd(d))) && GroupsPrimary(Group(OneAnd(d))) == 1 + GroupsOr(OneAnd(d));
    case Or(l, r) =>
      var d := Alt(DeriveOr(l), DeriveAnd(r));
      assert DeriveAnd(t) == OneUnary(Plain(Group(d))) && GroupsPrimary(Group(d)) == 1 + GroupsOr(d);
  }

  lemma {:induction false} FewestOr(d: OrD)
    requires GoodOr(d)
    ensures PrintedOr(TreeOr(d)) <= GroupsOr(d)
  {
    match d
    case OneAnd(a) =>
      FewestAnd(a);
      ContextCost(TreeAnd(a));
    case Alt(l, r) =>
      FewestOr(l);
      FewestAnd(r);
      assert DeriveOr(TreeOr(d)) == Alt(DeriveOr(TreeOr(l)), DeriveAnd(TreeAnd(r)));
  }

  lemma {:induction false} FewestAnd(d: AndD)
    requires GoodAnd(d)
    ensures PrintedAnd(TreeAnd(d)) <= GroupsAnd(d)
  {
    match d
    case OneUnary(x) =>
      FewestUnary(x);
      ContextCost(TreeUnary(x));
    case Both(l, _, r) =>
      FewestAnd(l);
      FewestUnary(r);
      assert DeriveAnd(TreeAnd(d)) == Both(DeriveAnd(TreeAnd(l)), true, DeriveUnary(TreeUnary(r)));
  }

  lemma {:induction false} FewestUnary(d: UnaryD)
    requires GoodUnary(d)
    ensures PrintedUnary(TreeUnary(d)) <= GroupsPrimary(d.primary)
  {
    match d
    case Plain(p) =>
      match p {
        case Single(_, _) =>
        case Group(inner) =>
          FewestOr(inner);
          ContextCost(TreeOr(inner));
      }
    case Negated(p) =>
      assert PrintedUnary(TreeUnary(d)) == 0;
  }

  /** No query for a tree has fewer parentheses than its print, so a query that leaves out one of the
      printed groups is refused or means something else. */
  lemma FewestParentheses(u: Unicode, t: Node, query: string)
    requires WellFormed(u, t) && Parse(u, query) == Some(Some(t))
    ensures Opens(Lex(u, PrintOr(t))) <= Opens(Lex(u, query))
  {
    AcceptedIffDerives(u, query, t);
    var d :| GoodOr(d) && YieldOr(d) == Lex(u, query) && TreeOr(d) == t;
    FewestOr(d);
    OpensOr(d);
    PrintScans(u, t);
    OpensOr(DeriveOr(t));
  }

  // ----- Accepted trees are printed and read back -----

  /** Laws of the character tables: folding, trimming and splitting add no underscore, and repeating
      them changes nothing. */
  ghost predicate Tidy(u: Unicode) {
    && (forall s :: u.lower(u.lower(s)) == u.lower(s))
    && (forall s :: u.trim(u.lower(u.trim(s))) == u.lower(u.trim(s)))
    && (forall s :: Cleaned(u, Cleaned(u, s)) == Cleaned(u, s))
    && (forall s :: u.trim(Cleaned(u, s)) == Cleaned(u, s))
    && (forall s | '_' !in s :: '_' !in u.lower(u.trim(s)) && '_' !in Cleaned(u, s))
  }

  /** A tag's words, single spaced and folded. */
  function Cleaned(u: Unicode, s: string): string {
    u.lower(Join(" ", u.fields(s)))
  }

  /** The tables of plain lower-case text without spaces are tidy. */
  lemma TidyTables()
    ensures Tidy(Unicode((s: string) => s, (s: string) => s, (s: string) => [s], (s: string) => false))
  {
  }

  lemma NoUnderscore(s: string)
    ensures '_' !in Replace(s, '_', ' ')
  {
  }

  lemma Respelled(s: string)
    requires '_' !in s
    ensures Replace(Replace(s, ' ', '_'), '_', ' ') == s && Replace(s, '_', ' ') == s
  {
  }

  lemma NormalAgain(u: Unicode, raw: string)
    requires Tidy(u)
    ensures var v := Normalize(u, raw); '_' !in v && Normalize(u, v) == v && Normalize(u, Replace(v, ' ', '_')) == v
  {
    var s := Replace(raw, '_', ' ');
    NoUnderscore(raw);
    var v := u.lower(u.trim(s));
    Respelled(v);
    assert u.lower(u.trim(v)) == v by { assert u.trim(v) == v && u.lower(v) == v; }
  }

  lemma CleanAgain(u: Unicode, raw: string)
    requires Tidy(u)
    ensures var v := Cleaned(u, Normalize(u, raw)); Cleaned(u, Normalize(u, Replace(v, ' ', '_'))) == v
  {
    var s := Normalize(u, raw);
    NormalAgain(u, raw);
    var v := Cleaned(u, s);
    Respelled(v);
    assert u.trim(v) == v;
    assert u.lower(v) == v by { assert u.lower(u.lower(Join(" ", u.fields(s)))) == u.lower(Join(" ", u.fields(s))); }
    assert Normalize(u, Replace(v, ' ', '_')) == v;
    assert Cleaned(u, v) == v;
  }

  /** An accepted term is printable exactly when it can be written. */
  lemma AcceptedTermPrintable(u: Unicode, kind: Kind, raw: string, value: string)
    requires Tidy(u) && TermValue(u, kind, raw) == Some(value)
    ensures Printable(u, kind, value) <==> Writable(kind, value)
  {
    if kind == Tag {
      CleanAgain(u, raw);
      assert value == Cleaned(u, Normalize(u, raw));
    } else {
      NormalAgain(u, raw);
      assert value == Normalize(u, raw);
    }
  }

  predicate WritableTerms(t: Node) {
    match t
    case Leaf(kind, value) => Writable(kind, value)
    case And(l, r) => WritableTerms(l) && WritableTerms(r)
    case Or(l, r) => WritableTerms(l) && WritableTerms(r)
    case Not(x) => WritableTerms(x)
  }

  lemma {:induction false} ProperIsWellFormed(u: Unicode, t: Node)
    requires Tidy(u) && Proper(u, t)
    ensures WellFormed(u, t) <==> WritableTerms(t)
  {
    match t
    case Leaf(kind, value) =>
      var raw :| TermValue(u, kind, raw) == Some(value);
      AcceptedTermPrintable(u, kind, raw, value);
    case And(l, r) => ProperIsWellFormed(u, l); ProperIsWellFormed(u, r);
    case Or(l, r) => ProperIsWellFormed(u, l); ProperIsWellFormed(u, r);
    case Not(x) => ProperIsWellFormed(u, x);
  }

  /** Whatever was typed, if its terms can be written then printing its tree and parsing the print
      gives the tree again. */
  lemma AcceptedRoundTrip(u: Unicode, query: string, t: Node)
    requires Tidy(u) && Parse(u, query) == Some(Some(t)) && WritableTerms(t) && |PrintOr(t)| <= MAX_QUERY
    ensures Parse(u, PrintOr(t)) == Some(Some(t))
  {
    AcceptedIsProper(u, query, t);
    ProperIsWellFormed(u, t);
    RoundTrip(u, t);
  }
}
