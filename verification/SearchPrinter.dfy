/** Printing search trees with the fewest parentheses, and reading them back. */
module SearchPrinter {
  import opened Basics
  import opened SearchSyntax

  /** Spaces inside unquoted terms are written as underscores. */
  function PrintTerm(kind: Kind, value: string): string {
    match kind
    case Text => Replace(value, ' ', '_')
    case Tag => "#" + Replace(value, ' ', '_')
    case Path => "'" + value + "'"
    case Comment => "[" + value + "]"
  }

  function PrintOr(t: Node): string
    decreases t, 3
  {
    match t
    case Or(l, r) => PrintOr(l) + " | " + PrintAnd(r)
    case _ => PrintAnd(t)
  }

  function PrintAnd(t: Node): string
    decreases t, 2
  {
    match t
    case And(l, r) => PrintAnd(l) + " + " + PrintUnary(r)
    case Or(l, r) => "(" + (PrintOr(l) + " | " + PrintAnd(r)) + ")"
    case _ => PrintUnary(t)
  }

  function PrintUnary(t: Node): string
    decreases t, 1
  {
    match t
    case Leaf(kind, value) => PrintTerm(kind, value)
    case Not(x) => "!" + PrintUnary(x)
    case And(l, r) => "(" + (PrintAnd(l) + " + " + PrintUnary(r)) + ")"
    case Or(l, r) => "(" + (PrintOr(l) + " | " + PrintAnd(r)) + ")"
  }

  // ----- Trees that have a printed form -----

  /** A term free of the bytes that would end or requote its written form. */
  predicate Writable(kind: Kind, value: string) {
    && value != ""
    && match kind
       case Path => '\'' !in value
       case Comment => ']' !in value
       case Text => (forall c | c in value :: c == ' ' || !Delimiter(c)) && value[0] != '[' && value[0] != '\''
       case Tag => forall c | c in value :: c == ' ' || !Delimiter(c)
  }

  /** What is typed for a term, apart from its marks. */
  function Typed(kind: Kind, value: string): string {
    if kind == Path || kind == Comment then value else Replace(value, ' ', '_')
  }

  /** A term whose written form is read back as itself. */
  predicate Printable(u: Unicode, kind: Kind, value: string) {
    TermValue(u, kind, Typed(kind, value)) == Some(value) && Writable(kind, value)
  }

  ghost predicate WellFormed(u: Unicode, t: Node) {
    match t
    case Leaf(kind, value) => Printable(u, kind, value)
    case And(l, r) => WellFormed(u, l) && WellFormed(u, r)
    case Or(l, r) => WellFormed(u, l) && WellFormed(u, r)
    case Not(x) => Negatable(x) && WellFormed(u, x)
  }

  // ----- The derivation of a printed tree -----

  function DeriveOr(t: Node): OrD
    decreases t, 3
  {
    match t
    case Or(l, r) => Alt(DeriveOr(l), DeriveAnd(r))
    case _ => OneAnd(DeriveAnd(t))
  }

  function DeriveAnd(t: Node): AndD
    decreases t, 2
  {
    match t
    case And(l, r) => Both(DeriveAnd(l), true, DeriveUnary(r))
    case Or(l, r) => OneUnary(Plain(Group(Alt(DeriveOr(l), DeriveAnd(r)))))
    case _ => OneUnary(DeriveUnary(t))
  }

  function DeriveUnary(t: Node): UnaryD
    decreases t, 1
  {
    match t
    case Leaf(kind, value) => Plain(Single(kind, value))
    case Not(x) => Negated(if x.Leaf? then Single(x.kind, x.value) else Group(OneAnd(OneUnary(DeriveUnary(x)))))
    case And(l, r) => Plain(Group(OneAnd(Both(DeriveAnd(l), true, DeriveUnary(r)))))
    case Or(l, r) => Plain(Group(Alt(DeriveOr(l), DeriveAnd(r))))
  }

  lemma {:induction false} OrDenotes(u: Unicode, t: Node)
    requires WellFormed(u, t)
    ensures GoodOr(DeriveOr(t)) && TreeOr(DeriveOr(t)) == t
    decreases t, 3
  {
    match t
    case Or(l, r) => OrDenotes(u, l); AndDenotes(u, r);
    case _ => AndDenotes(u, t);
  }

  lemma {:induction false} AndDenotes(u: Unicode, t: Node)
    requires WellFormed(u, t)
    ensures GoodAnd(DeriveAnd(t)) && TreeAnd(DeriveAnd(t)) == t
    decreases t, 2
  {
    match t
    case And(l, r) => AndDenotes(u, l); UnaryDenotes(u, r);
    case Or(l, r) =>
      OrDenotes(u, l);
      AndDenotes(u, r);
      var d := Alt(DeriveOr(l), DeriveAnd(r));
      assert GoodOr(d) && TreeOr(d) == t;
      assert GoodPrimary(Group(d)) && TreePrimary(Group(d)) == t;
      assert GoodUnary(Plain(Group(d))) && TreeUnary(Plain(Group(d))) == t;
    case _ => UnaryDenotes(u, t);
  }

  lemma {:induction false} UnaryDenotes(u: Unicode, t: Node)
    requires WellFormed(u, t)
    ensures GoodUnary(DeriveUnary(t)) && TreeUnary(DeriveUnary(t)) == t
    decreases t, 1
  {
    match t
    case Leaf(_, _) =>
    case Not(x) =>
    case And(l, r) =>
      AndDenotes(u, l);
      UnaryDenotes(u, r);
      var d := Both(DeriveAnd(l), true, DeriveUnary(r));
      assert GoodAnd(d) && TreeAnd(d) == t;
      assert GoodOr(OneAnd(d)) && TreeOr(OneAnd(d)) == t;
    case Or(l, r) =>
      OrDenotes(u, l);
      AndDenotes(u, r);
      var d := Alt(DeriveOr(l), DeriveAnd(r));
      assert GoodOr(d) && TreeOr(d) == t;
  }

  // ----- Printing spells the derivation's tokens -----

  predicate Ends(tail: string) {
    tail == "" || Delimiter(tail[0])
  }

  lemma {:induction false} WordOf(w: string, tail: string)
    requires (forall i | 0 <= i < |w| :: !Delimiter(w[i])) && Ends(tail)
    ensures WordLength(w + tail) == |w|
  {
    if w == "" {
      assert w + tail == tail;
    } else {
      assert (w + tail)[1..] == w[1..] + tail;
      WordOf(w[1..], tail);
    }
  }

  lemma {:induction false} QuoteOf(w: string, c: char, tail: string)
    requires c !in w && tail != "" && tail[0] == c
    ensures IndexOf(w + tail, c) == |w|
  {
    if w == "" {
      assert w + tail == tail;
    } else {
      assert (w + tail)[1..] == w[1..] + tail;
      QuoteOf(w[1..], c, tail);
    }
  }

  /** s is scanned as ts whatever follows; when open, only if what follows ends a word. */
  ghost predicate Spells(lex: string -> seq<Token>, s: string, ts: seq<Token>, open: bool) {
    forall tail {:trigger lex(s + tail)} | open ==> Ends(tail) :: lex(s + tail) == ts + lex(tail)
  }

  lemma SpellsBoth(lex: string -> seq<Token>, a: string, x: seq<Token>, aOpen: bool, b: string, y: seq<Token>,
                   bOpen: bool)
    requires Spells(lex, a, x, aOpen) && Spells(lex, b, y, bOpen) && b != "" && (aOpen ==> Delimiter(b[0]))
    ensures Spells(lex, a + b, x + y, bOpen)
  {
    forall tail | bOpen ==> Ends(tail) ensures lex((a + b) + tail) == (x + y) + lex(tail) {
      assert (a + b) + tail == a + (b + tail);
      assert (x + y) + lex(tail) == x + (y + lex(tail));
    }
  }

  lemma MarkSpells(u: Unicode, mark: char)
    requires mark in "()|+!"
    ensures Spells(Scanner(u), [mark], [MarkToken(mark)], false)
  {
    forall tail ensures Lex(u, [mark] + tail) == [MarkToken(mark)] + Lex(u, tail) {
      assert ([mark] + tail)[1..] == tail;
    }
  }

  lemma SpaceSpells(u: Unicode)
    ensures Spells(Scanner(u), " ", [], false)
  {
    forall tail ensures Lex(u, " " + tail) == [] + Lex(u, tail) {
      assert (" " + tail)[1..] == tail;
      assert [] + Lex(u, tail) == Lex(u, tail);
    }
  }

  function MarkToken(mark: char): Token {
    match mark
    case '(' => Open
    case ')' => Close
    case '|' => Bar
    case '+' => Plus
    case _ => Bang
  }

  lemma TextStep(u: Unicode, s: string, w: string, tail: string)
    requires w != "" && s == w + tail && WordLength(s) == |w| && !Delimiter(w[0]) && w[0] != '[' && w[0] != '\''
    ensures Lex(u, s) == TermToken(u, Text, w, Lex(u, tail))
  {
    assert s[..|w|] == w && s[|w|..] == tail;
  }

  lemma Written(u: Unicode, kind: Kind, value: string)
    requires Printable(u, kind, value) && (kind == Text || kind == Tag)
    ensures var w := Replace(value, ' ', '_');
      w != "" && (forall i | 0 <= i < |w| :: !Delimiter(w[i])) && TermValue(u, kind, w) == Some(value)
  {
    WrittenWord(value);
  }

  lemma WrittenWord(value: string)
    requires forall c | c in value :: c == ' ' || !Delimiter(c)
    ensures var w := Replace(value, ' ', '_'); forall i | 0 <= i < |w| :: !Delimiter(w[i])
  {
    var w := Replace(value, ' ', '_');
    assert !Delimiter('_');
    forall i | 0 <= i < |w| ensures !Delimiter(w[i]) { assert value[i] in value; }
  }

  lemma TextSpells(u: Unicode, value: string)
    requires Printable(u, Text, value)
    ensures Spells(Scanner(u), PrintTerm(Text, value), [Term(Text, value)], true)
  {
    var w := Replace(value, ' ', '_');
    Written(u, Text, value);
    assert w[0] == if value[0] == ' ' then '_' else value[0];
    forall tail | Ends(tail) ensures Lex(u, w + tail) == [Term(Text, value)] + Lex(u, tail) {
      WordOf(w, tail);
      TextStep(u, w + tail, w, tail);
    }
  }

  lemma TokenOf(u: Unicode, kind: Kind, raw: string, value: string, rest: seq<Token>)
    requires TermValue(u, kind, raw) == Some(value)
    ensures TermToken(u, kind, raw, rest) == [Term(kind, value)] + rest
  {
  }

  lemma TagStep(u: Unicode, lex: string -> seq<Token>, w: string, tail: string)
    requires (forall i | 0 <= i < |w| :: !Delimiter(w[i])) && Ends(tail)
    requires AtTag(u, lex, ("#" + w) + tail)
    ensures lex(("#" + w) + tail) == TermToken(u, Tag, w, lex(tail))
  {
    WordOf(w, tail);
    assert (("#" + w) + tail)[1..] == w + tail;
    assert (w + tail)[..|w|] == w && (w + tail)[|w|..] == tail;
  }

  lemma QuoteStep(u: Unicode, lex: string -> seq<Token>, kind: Kind, first: char, close: char, w: string, tail: string)
    requires close !in w && AtQuote(u, lex, ([first] + w + [close]) + tail, kind, close)
    ensures lex(([first] + w + [close]) + tail) == TermToken(u, kind, w, lex(tail))
  {
    var s, rest := ([first] + w + [close]) + tail, w + ([close] + tail);
    QuoteOf(w, close, [close] + tail);
    assert s[1..] == rest;
    assert rest[..|w|] == w && rest[|w| + 1..] == tail;
  }

  lemma TagSpells(u: Unicode, value: string)
    requires Printable(u, Tag, value)
    ensures Spells(Scanner(u), PrintTerm(Tag, value), [Term(Tag, value)], true)
  {
    var w := Replace(value, ' ', '_');
    Written(u, Tag, value);
    forall tail | Ends(tail) ensures Lex(u, ("#" + w) + tail) == [Term(Tag, value)] + Lex(u, tail) {
      ScansTag(u, ("#" + w) + tail);
      TagStep(u, Scanner(u), w, tail);
      TokenOf(u, Tag, w, value, Lex(u, tail));
    }
  }

  lemma QuotedSpells(u: Unicode, kind: Kind, value: string)
    requires (kind == Path || kind == Comment) && Printable(u, kind, value)
    ensures Spells(Scanner(u), PrintTerm(kind, value), [Term(kind, value)], false)
  {
    var first, close := if kind == Path then '\'' else '[', if kind == Path then '\'' else ']';
    assert PrintTerm(kind, value) == [first] + value + [close];
    forall tail ensures Lex(u, PrintTerm(kind, value) + tail) == [Term(kind, value)] + Lex(u, tail) {
      ScansQuote(u, PrintTerm(kind, value) + tail);
      QuoteStep(u, Scanner(u), kind, first, close, value, tail);
      TokenOf(u, kind, value, value, Lex(u, tail));
    }
  }

  lemma TermSpells(u: Unicode, kind: Kind, value: string)
    requires Printable(u, kind, value)
    ensures Spells(Scanner(u), PrintTerm(kind, value), [Term(kind, value)], true) && PrintTerm(kind, value) != ""
  {
    match kind
    case Text => TextSpells(u, value);
    case Tag => TagSpells(u, value);
    case Path => QuotedSpells(u, kind, value);
    case Comment => QuotedSpells(u, kind, value);
  }

  /** Two printed operands around an operator. */
  lemma InfixSpells(u: Unicode, mark: char, a: string, x: seq<Token>, b: string, y: seq<Token>)
    requires mark in "|+" && b != ""
    requires Spells(Scanner(u), a, x, true) && Spells(Scanner(u), b, y, true)
    ensures Spells(Scanner(u), a + (" " + [mark] + " ") + b, x + [MarkToken(mark)] + y, true)
  {
    var lex, op := Scanner(u), " " + [mark] + " ";
    SpaceSpells(u);
    MarkSpells(u, mark);
    SpellsBoth(lex, " ", [], false, [mark], [MarkToken(mark)], false);
    SpellsBoth(lex, " " + [mark], [] + [MarkToken(mark)], false, " ", [], false);
    assert [] + [MarkToken(mark)] + [] == [MarkToken(mark)];
    SpellsBoth(lex, a, x, true, op, [MarkToken(mark)], false);
    SpellsBoth(lex, a + op, x + [MarkToken(mark)], false, b, y, true);
  }

  lemma GroupSpells(u: Unicode, a: string, x: seq<Token>)
    requires Spells(Scanner(u), a, x, true) && a != ""
    ensures Spells(Scanner(u), "(" + a + ")", [Open] + x + [Close], true)
  {
    MarkSpells(u, '(');
    MarkSpells(u, ')');
    SpellsBoth(Scanner(u), "(", [Open], false, a, x, true);
    SpellsBoth(Scanner(u), "(" + a, [Open] + x, true, ")", [Close], false);
  }

  lemma {:induction false} OrSpells(u: Unicode, t: Node)
    requires WellFormed(u, t)
    ensures Spells(Scanner(u), PrintOr(t), YieldOr(DeriveOr(t)), true) && PrintOr(t) != ""
    decreases t, 3
  {
    match t
    case Or(l, r) => AlternativeSpells(u, l, r);
    case _ => AndSpells(u, t);
  }

  lemma {:induction false} AlternativeSpells(u: Unicode, l: Node, r: Node)
    requires WellFormed(u, l) && WellFormed(u, r)
    ensures Spells(Scanner(u), PrintOr(l) + " | " + PrintAnd(r), YieldOr(Alt(DeriveOr(l), DeriveAnd(r))), true)
    decreases Or(l, r), 0
  {
    OrSpells(u, l);
    AndSpells(u, r);
    InfixSpells(u, '|', PrintOr(l), YieldOr(DeriveOr(l)), PrintAnd(r), YieldAnd(DeriveAnd(r)));
    assert " " + ['|'] + " " == " | ";
  }

  lemma {:induction false} ConjunctionSpells(u: Unicode, l: Node, r: Node)
    requires WellFormed(u, l) && WellFormed(u, r)
    ensures Spells(Scanner(u), PrintAnd(l) + " + " + PrintUnary(r), YieldAnd(Both(DeriveAnd(l), true, DeriveUnary(r))),
                   true)
    decreases And(l, r), 0
  {
    AndSpells(u, l);
    UnarySpells(u, r);
    InfixSpells(u, '+', PrintAnd(l), YieldAnd(DeriveAnd(l)), PrintUnary(r), YieldUnary(DeriveUnary(r)));
    assert " " + ['+'] + " " == " + ";
  }

  lemma {:induction false} AndSpells(u: Unicode, t: Node)
    requires WellFormed(u, t)
    ensures Spells(Scanner(u), PrintAnd(t), YieldAnd(DeriveAnd(t)), true) && PrintAnd(t) != ""
    decreases t, 2
  {
    match t
    case And(l, r) => ConjunctionSpells(u, l, r);
    case Or(l, r) =>
      AlternativeSpells(u, l, r);
      var d := Alt(DeriveOr(l), DeriveAnd(r));
      GroupSpells(u, PrintOr(l) + " | " + PrintAnd(r), YieldOr(d));
      assert YieldUnary(Plain(Group(d))) == [Open] + YieldOr(d) + [Close];
    case _ => UnarySpells(u, t);
  }

  lemma NegationSpells(u: Unicode, s: string, ts: seq<Token>)
    requires Spells(Scanner(u), s, ts, true) && s != ""
    ensures Spells(Scanner(u), "!" + s, [Bang] + ts, true)
  {
    MarkSpells(u, '!');
    SpellsBoth(Scanner(u), "!", [Bang], false, s, ts, true);
  }

  lemma NotSpells(u: Unicode, kind: Kind, value: string)
    requires Printable(u, kind, value)
    ensures Spells(Scanner(u), "!" + PrintTerm(kind, value), [Bang] + [Term(kind, value)], true)
  {
    TermSpells(u, kind, value);
    NegationSpells(u, PrintTerm(kind, value), [Term(kind, value)]);
  }

  lemma {:induction false} UnarySpells(u: Unicode, t: Node)
    requires WellFormed(u, t)
    ensures Spells(Scanner(u), PrintUnary(t), YieldUnary(DeriveUnary(t)), true) && PrintUnary(t) != ""
    decreases t, 1
  {
    match t
    case Leaf(kind, value) => TermSpells(u, kind, value);
    case Not(x) => NotSpells(u, x.kind, x.value);
    case And(l, r) =>
      var d := Both(DeriveAnd(l), true, DeriveUnary(r));
      ConjunctionSpells(u, l, r);
      GroupSpells(u, PrintAnd(l) + " + " + PrintUnary(r), YieldAnd(d));
      assert YieldOr(OneAnd(d)) == YieldAnd(d);
    case Or(l, r) =>
      AlternativeSpells(u, l, r);
      GroupSpells(u, PrintOr(l) + " | " + PrintAnd(r), YieldOr(Alt(DeriveOr(l), DeriveAnd(r))));
  }

  lemma PrintScans(u: Unicode, t: Node)
    requires WellFormed(u, t)
    ensures Lex(u, PrintOr(t)) == YieldOr(DeriveOr(t))
  {
    OrSpells(u, t);
    assert PrintOr(t) + "" == PrintOr(t);
    assert Scanner(u)(PrintOr(t) + "") == YieldOr(DeriveOr(t)) + Scanner(u)("");
    assert YieldOr(DeriveOr(t)) + [] == YieldOr(DeriveOr(t));
  }

  /** Parsing a tree's printed form returns the tree. */
  lemma RoundTrip(u: Unicode, t: Node)
    requires WellFormed(u, t) && Leaves(t) <= MAX_TERMS && |PrintOr(t)| <= MAX_QUERY
    ensures Parse(u, PrintOr(t)) == Some(Some(t))
  {
    PrintScans(u, t);
    OrDenotes(u, t);
    AcceptedIffDerives(u, PrintOr(t), t);
  }

  /** A normal word is a query for itself. */
  lemma WordParses(u: Unicode, word: string)
    requires TermValue(u, Text, word) == Some(word) && ' ' !in word && Writable(Text, word) && |word| <= MAX_QUERY
    ensures Parse(u, word) == Some(Some(Leaf(Text, word)))
  {
    Unspaced(word);
    var t := Leaf(Text, word);
    assert PrintUnary(t) == word && PrintAnd(t) == PrintUnary(t) && PrintOr(t) == PrintAnd(t);
    RoundTrip(u, t);
  }

  lemma Unspaced(s: string)
    requires ' ' !in s
    ensures Replace(s, ' ', '_') == s
  {
  }
}
