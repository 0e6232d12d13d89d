/** The search language said of the bytes of a query: where words, tags and quotes begin and end, and what
    each of them is accepted as. */
module SearchBytes {
  import opened Basics
  import opened SearchSyntax
  import opened SearchPrinter

  ghost predicate White(c: char) {
    9 <= c as int <= 13 || c as int == 32 || c as int == 0x85 || c as int == 0xA0
  }

  /** The bytes at which a word or tag ends. */
  ghost predicate Breaks(c: char) {
    White(c) || c == '!' || c == '#' || c == '+' || c == '|' || c == '(' || c == ')'
  }

  ghost predicate Unbroken(w: string) {
    forall i | 0 <= i < |w| :: !Breaks(w[i])
  }

  /** w can stand alone as a word: no byte ends it early, and it opens no quote. */
  ghost predicate Word(w: string) {
    w != "" && Unbroken(w) && w[0] != '[' && w[0] != '\''
  }

  /** s is w with underscores read as spaces. */
  ghost predicate Spaced(w: string, s: string) {
    |s| == |w| && forall i | 0 <= i < |w| :: s[i] == if w[i] == '_' then ' ' else w[i]
  }

  /** w is read as the value v: trimmed and folded, of 1 to 100 bytes. */
  ghost predicate Reads(u: Unicode, w: string, v: string) {
    (exists s :: Spaced(w, s) && v == u.lower(u.trim(s))) && 1 <= |v| <= 100
  }

  /** w is read as the tag v: its fields single spaced and folded, of 1 to 100 bytes, without slashes,
      backslashes and control characters. */
  ghost predicate ReadsTag(u: Unicode, w: string, v: string) {
    && (exists s :: Spaced(w, s) && v == u.lower(Join(" ", u.fields(u.lower(u.trim(s))))))
    && 1 <= |v| <= 100 && '/' !in v && '\\' !in v && !u.hasControl(v)
  }

  lemma SpacedOnce(w: string, s: string)
    ensures Spaced(w, s) <==> s == Replace(w, '_', ' ')
  {
  }

  lemma ReadsIff(u: Unicode, w: string, v: string)
    ensures Reads(u, w, v) <==> BoundedTerm(u, w) == Some(v)
  {
    SpacedOnce(w, Replace(w, '_', ' '));
    forall s ensures Spaced(w, s) <==> s == Replace(w, '_', ' ') { SpacedOnce(w, s); }
  }

  lemma ReadsTagIff(u: Unicode, w: string, v: string)
    ensures ReadsTag(u, w, v) <==> TermValue(u, Tag, w) == Some(v)
  {
    SpacedOnce(w, Replace(w, '_', ' '));
    forall s ensures Spaced(w, s) <==> s == Replace(w, '_', ' ') { SpacedOnce(w, s); }
  }

  lemma BreaksIff(c: char)
    ensures Breaks(c) <==> Delimiter(c)
  {
    assert c in "!#+|()" <==> c == '!' || c == '#' || c == '+' || c == '|' || c == '(' || c == ')';
  }

  lemma UnbrokenIff(w: string)
    ensures Unbroken(w) <==> forall i | 0 <= i < |w| :: !Delimiter(w[i])
  {
    forall i | 0 <= i < |w| ensures Breaks(w[i]) <==> Delimiter(w[i]) { BreaksIff(w[i]); }
  }

  // ----- Scanning raw terms -----

  lemma RawText(u: Unicode, w: string, v: string)
    requires Word(w) && Reads(u, w, v)
    ensures Spells(Scanner(u), w, [Term(Text, v)], true)
  {
    UnbrokenIff(w);
    ReadsIff(u, w, v);
    forall tail | Ends(tail) ensures Lex(u, w + tail) == [Term(Text, v)] + Lex(u, tail) {
      WordOf(w, tail);
      TextStep(u, w + tail, w, tail);
    }
  }

  lemma RawTag(u: Unicode, w: string, v: string)
    requires Unbroken(w) && ReadsTag(u, w, v)
    ensures Spells(Scanner(u), "#" + w, [Term(Tag, v)], true)
  {
    UnbrokenIff(w);
    ReadsTagIff(u, w, v);
    forall tail | Ends(tail) ensures Lex(u, ("#" + w) + tail) == [Term(Tag, v)] + Lex(u, tail) {
      ScansTag(u, ("#" + w) + tail);
      TagStep(u, Scanner(u), w, tail);
      TokenOf(u, Tag, w, v, Lex(u, tail));
    }
  }

  lemma WhiteSpells(u: Unicode, c: char)
    requires White(c)
    ensures Spells(Scanner(u), [c], [], false)
  {
    forall tail ensures Lex(u, [c] + tail) == [] + Lex(u, tail) {
      assert ([c] + tail)[1..] == tail;
      assert [] + Lex(u, tail) == Lex(u, tail);
    }
  }

  lemma Whole(u: Unicode, s: string, ts: seq<Token>, open: bool)
    requires Spells(Scanner(u), s, ts, open)
    ensures Lex(u, s) == ts
  {
    assert s + "" == s;
    assert Scanner(u)(s + "") == ts + Scanner(u)("");
  }

  lemma Accepted(u: Unicode, query: string, d: OrD)
    requires |query| <= 1000 && Lex(u, query) == YieldOr(d) && GoodOr(d) && Leaves(TreeOr(d)) <= 20
    ensures Parse(u, query) == Some(Some(TreeOr(d)))
  {
    AcceptedIffDerives(u, query, TreeOr(d));
  }

  lemma BadFails(u: Unicode, query: string)
    requires Lex(u, query) == [Bad]
    ensures Parse(u, query) == None
  {
    assert PPrimary([Bad], 0) == Fail;
    assert PUnary([Bad], 0) == Fail;
    assert PAnd([Bad], 0) == Fail;
    assert POr([Bad], 0) == Fail;
  }

  // ----- One term -----

  function TermAlone(kind: Kind, v: string): UnaryD {
    Plain(Single(kind, v))
  }

  function OneTerm(kind: Kind, v: string): OrD {
    OneAnd(OneUnary(TermAlone(kind, v)))
  }

  lemma AloneMeans(x: UnaryD)
    requires GoodUnary(x)
    ensures GoodAnd(OneUnary(x)) && YieldAnd(OneUnary(x)) == YieldUnary(x) && TreeAnd(OneUnary(x)) == TreeUnary(x)
    ensures GoodOr(OneAnd(OneUnary(x))) && YieldOr(OneAnd(OneUnary(x))) == YieldUnary(x)
    ensures TreeOr(OneAnd(OneUnary(x))) == TreeUnary(x)
  {
    assert GoodAnd(OneUnary(x)) && YieldAnd(OneUnary(x)) == YieldUnary(x) && TreeAnd(OneUnary(x)) == TreeUnary(x);
  }

  lemma TermMeans(kind: Kind, v: string)
    ensures var x := TermAlone(kind, v);
      GoodUnary(x) && YieldUnary(x) == [Term(kind, v)] && TreeUnary(x) == Leaf(kind, v)
  {
    var p := Single(kind, v);
    assert GoodPrimary(p) && YieldPrimary(p) == [Term(kind, v)] && TreePrimary(p) == Leaf(kind, v);
  }

  lemma OneTermAccepted(u: Unicode, query: string, kind: Kind, v: string)
    requires |query| <= 1000 && Lex(u, query) == [Term(kind, v)]
    ensures Parse(u, query) == Some(Some(Leaf(kind, v)))
  {
    TermMeans(kind, v);
    AloneMeans(TermAlone(kind, v));
    Accepted(u, query, OneTerm(kind, v));
  }

  lemma WordToken(u: Unicode, w: string)
    requires Word(w)
    ensures Lex(u, w) == TermToken(u, Text, w, [])
  {
    UnbrokenIff(w);
    WordOf(w, "");
    assert w + "" == w;
    TextStep(u, w, w, "");
  }

  /** A word is accepted as exactly one text term, or refused when its value is empty or too long. */
  lemma WordQuery(u: Unicode, w: string, v: string)
    requires Word(w) && |w| <= 1000
    ensures Parse(u, w) == Some(Some(Leaf(Text, v))) <==> Reads(u, w, v)
    ensures Parse(u, w) == None || exists x :: Parse(u, w) == Some(Some(Leaf(Text, x)))
  {
    WordToken(u, w);
    ReadsIff(u, w, v);
    match BoundedTerm(u, w)
    case None => BadFails(u, w);
    case Some(x) => OneTermAccepted(u, w, Text, x);
  }

  /** A '#' and the bytes up to the next break are one tag. */
  lemma TagQuery(u: Unicode, w: string, v: string)
    requires Unbroken(w) && |w| <= 999
    ensures Parse(u, "#" + w) == Some(Some(Leaf(Tag, v))) <==> ReadsTag(u, w, v)
    ensures Parse(u, "#" + w) == None || exists x :: Parse(u, "#" + w) == Some(Some(Leaf(Tag, x)))
  {
    UnbrokenIff(w);
    ReadsTagIff(u, w, v);
    assert ("#" + w) + "" == "#" + w;
    ScansTag(u, "#" + w);
    TagStep(u, Scanner(u), w, "");
    match TermValue(u, Tag, w)
    case None => BadFails(u, "#" + w);
    case Some(x) => OneTermAccepted(u, "#" + w, Tag, x);
  }

  /** Everything between a quote and its closing mark is one comment or path term. */
  lemma QuoteQuery(u: Unicode, kind: Kind, w: string, v: string)
    requires kind == Comment || kind == Path
    requires |w| <= 998 && (if kind == Comment then ']' !in w else '\'' !in w)
    ensures var query := if kind == Comment then "[" + w + "]" else "'" + w + "'";
      && (Parse(u, query) == Some(Some(Leaf(kind, v))) <==> Reads(u, w, v))
      && (Parse(u, query) == None || exists x :: Parse(u, query) == Some(Some(Leaf(kind, x))))
  {
    var first, close := if kind == Path then '\'' else '[', if kind == Path then '\'' else ']';
    var query := [first] + w + [close];
    ReadsIff(u, w, v);
    assert query + "" == query;
    ScansQuote(u, query);
    QuoteStep(u, Scanner(u), kind, first, close, w, "");
    match BoundedTerm(u, w)
    case None => BadFails(u, query);
    case Some(x) => OneTermAccepted(u, query, kind, x);
  }

  /** A quote that is not closed is refused. */
  lemma OpenQuote(u: Unicode, w: string)
    ensures ']' !in w ==> Parse(u, "[" + w) == None
    ensures '\'' !in w ==> Parse(u, "'" + w) == None
  {
    assert ("[" + w)[1..] == w && ("'" + w)[1..] == w;
    if ']' !in w { BadFails(u, "[" + w); }
    if '\'' !in w { BadFails(u, "'" + w); }
  }

  // ----- What ends a word -----

  lemma Adjacent(u: Unicode, a: string, x: seq<Token>, b: string, y: seq<Token>)
    requires Spells(Scanner(u), a, x, true) && Spells(Scanner(u), b, y, true) && b != "" && Breaks(b[0])
    ensures Spells(Scanner(u), a + b, x + y, true)
  {
    BreaksIff(b[0]);
    SpellsBoth(Scanner(u), a, x, true, b, y, true);
  }

  lemma Marked(u: Unicode, mark: string, ts: seq<Token>, a: string, x: seq<Token>)
    requires Spells(Scanner(u), mark, ts, false) && Spells(Scanner(u), a, x, true) && a != ""
    ensures Spells(Scanner(u), mark + a, ts + x, true)
  {
    SpellsBoth(Scanner(u), mark, ts, false, a, x, true);
  }

  /** '|' ends a word and stands for OR. */
  lemma BarEnds(u: Unicode, w: string, x: string, v: string, y: string)
    requires Word(w) && Word(x) && Reads(u, w, v) && Reads(u, x, y) && |w| + 1 + |x| <= 1000
    ensures Parse(u, w + "|" + x) == Some(Some(Or(Leaf(Text, v), Leaf(Text, y))))
  {
    RawText(u, w, v);
    RawText(u, x, y);
    MarkSpells(u, '|');
    Marked(u, "|", [Bar], x, [Term(Text, y)]);
    Adjacent(u, w, [Term(Text, v)], "|" + x, [Bar] + [Term(Text, y)]);
    assert w + ("|" + x) == w + "|" + x;
    Whole(u, w + ("|" + x), [Term(Text, v)] + ([Bar] + [Term(Text, y)]), true);
    EitherAccepted(u, w + "|" + x, v, y);
  }

  lemma EitherAccepted(u: Unicode, query: string, v: string, y: string)
    requires |query| <= 1000 && Lex(u, query) == [Term(Text, v)] + ([Bar] + [Term(Text, y)])
    ensures Parse(u, query) == Some(Some(Or(Leaf(Text, v), Leaf(Text, y))))
  {
    TermMeans(Text, v);
    TermMeans(Text, y);
    AloneMeans(TermAlone(Text, v));
    AloneMeans(TermAlone(Text, y));
    var d := Alt(OneTerm(Text, v), OneUnary(TermAlone(Text, y)));
    assert YieldOr(d) == [Term(Text, v)] + [Bar] + [Term(Text, y)];
    Accepted(u, query, d);
  }

  lemma Conjoined(u: Unicode, w: string, v: string, b: string, plus: bool, right: UnaryD)
    requires Word(w) && Reads(u, w, v) && |w| + |b| <= 1000 && b != "" && Breaks(b[0])
    requires GoodUnary(right) && Leaves(TreeUnary(right)) <= 19
    requires Spells(Scanner(u), b, PlusTokens(plus) + YieldUnary(right), true)
    ensures Parse(u, w + b) == Some(Some(And(Leaf(Text, v), TreeUnary(right))))
  {
    RawText(u, w, v);
    Adjacent(u, w, [Term(Text, v)], b, PlusTokens(plus) + YieldUnary(right));
    Whole(u, w + b, [Term(Text, v)] + (PlusTokens(plus) + YieldUnary(right)), true);
    BothAccepted(u, w + b, v, plus, right);
  }

  lemma BothAccepted(u: Unicode, query: string, v: string, plus: bool, right: UnaryD)
    requires |query| <= 1000 && Lex(u, query) == [Term(Text, v)] + (PlusTokens(plus) + YieldUnary(right))
    requires GoodUnary(right) && Leaves(TreeUnary(right)) <= 19
    ensures Parse(u, query) == Some(Some(And(Leaf(Text, v), TreeUnary(right))))
  {
    TermMeans(Text, v);
    AloneMeans(TermAlone(Text, v));
    var a := Both(OneUnary(TermAlone(Text, v)), plus, right);
    assert YieldAnd(a) == [Term(Text, v)] + PlusTokens(plus) + YieldUnary(right);
    assert GoodAnd(a) && TreeAnd(a) == And(Leaf(Text, v), TreeUnary(right));
    assert GoodOr(OneAnd(a)) && YieldOr(OneAnd(a)) == YieldAnd(a) && TreeOr(OneAnd(a)) == TreeAnd(a);
    Accepted(u, query, OneAnd(a));
  }

  /** '+' and white space end a word and stand for AND. */
  lemma PlusAndWhiteEnd(u: Unicode, w: string, c: char, x: string, v: string, y: string)
    requires Word(w) && Word(x) && Reads(u, w, v) && Reads(u, x, y) && |w| + 1 + |x| <= 1000
    requires c == '+' || White(c)
    ensures Parse(u, w + [c] + x) == Some(Some(And(Leaf(Text, v), Leaf(Text, y))))
  {
    RawText(u, x, y);
    var right := TermAlone(Text, y);
    TermMeans(Text, y);
    if c == '+' {
      MarkSpells(u, '+');
      Marked(u, [c], [Plus], x, [Term(Text, y)]);
    } else {
      WhiteSpells(u, c);
      Marked(u, [c], [], x, [Term(Text, y)]);
    }
    Conjoined(u, w, v, [c] + x, c == '+', right);
    assert w + ([c] + x) == w + [c] + x;
  }

  /** '#', '!' and '(' end a word; what they begin is joined by AND. */
  lemma HashEnds(u: Unicode, w: string, x: string, v: string, y: string)
    requires Word(w) && Unbroken(x) && Reads(u, w, v) && ReadsTag(u, x, y) && |w| + 1 + |x| <= 1000
    ensures Parse(u, w + "#" + x) == Some(Some(And(Leaf(Text, v), Leaf(Tag, y))))
  {
    RawTag(u, x, y);
    var right := TermAlone(Tag, y);
    TermMeans(Tag, y);
    assert PlusTokens(false) + YieldUnary(right) == [Term(Tag, y)];
    Conjoined(u, w, v, "#" + x, false, right);
    assert w + ("#" + x) == w + "#" + x;
  }

  lemma BangEnds(u: Unicode, w: string, x: string, v: string, y: string)
    requires Word(w) && Unbroken(x) && Reads(u, w, v) && ReadsTag(u, x, y) && |w| + 2 + |x| <= 1000
    ensures Parse(u, w + "!#" + x) == Some(Some(And(Leaf(Text, v), Not(Leaf(Tag, y)))))
  {
    RawTag(u, x, y);
    MarkSpells(u, '!');
    Marked(u, "!", [Bang], "#" + x, [Term(Tag, y)]);
    var right := Negated(Single(Tag, y));
    assert PlusTokens(false) + YieldUnary(right) == [Bang] + [Term(Tag, y)];
    Conjoined(u, w, v, "!" + ("#" + x), false, right);
    assert w + ("!" + ("#" + x)) == w + "!#" + x;
  }

  /** Parentheses end a word and group. */
  lemma ParenthesesEnd(u: Unicode, w: string, x: string, v: string, y: string)
    requires Word(w) && Word(x) && Reads(u, w, v) && Reads(u, x, y) && |w| + 2 + |x| <= 1000
    ensures Parse(u, w + "(" + x + ")") == Some(Some(And(Leaf(Text, v), Leaf(Text, y))))
    ensures Parse(u, "(" + x + ")") == Some(Some(Leaf(Text, y)))
  {
    RawText(u, x, y);
    GroupSpells(u, x, [Term(Text, y)]);
    GroupMeans(y);
    var right := GroupAlone(y);
    assert PlusTokens(false) + YieldUnary(right) == YieldUnary(right);
    Conjoined(u, w, v, "(" + x + ")", false, right);
    assert w + ("(" + x + ")") == w + "(" + x + ")";
    Whole(u, "(" + x + ")", [Open] + [Term(Text, y)] + [Close], true);
    AloneMeans(right);
    Accepted(u, "(" + x + ")", OneAnd(OneUnary(right)));
  }

  function GroupAlone(v: string): UnaryD {
    Plain(Group(OneTerm(Text, v)))
  }

  lemma GroupMeans(v: string)
    ensures var x := GroupAlone(v);
      GoodUnary(x) && YieldUnary(x) == [Open] + [Term(Text, v)] + [Close] && TreeUnary(x) == Leaf(Text, v)
  {
    TermMeans(Text, v);
    AloneMeans(TermAlone(Text, v));
    var p := Group(OneTerm(Text, v));
    assert GoodPrimary(p) && TreePrimary(p) == Leaf(Text, v);
    assert YieldPrimary(p) == [Open] + [Term(Text, v)] + [Close];
  }

  // ----- Negation -----

  lemma RawQuote(u: Unicode, kind: Kind, w: string, v: string)
    requires kind == Comment || kind == Path
    requires (if kind == Comment then ']' !in w else '\'' !in w) && Reads(u, w, v)
    ensures Spells(Scanner(u), if kind == Comment then "[" + w + "]" else "'" + w + "'", [Term(kind, v)], true)
  {
    var first, close := if kind == Path then '\'' else '[', if kind == Path then '\'' else ']';
    var s := [first] + w + [close];
    ReadsIff(u, w, v);
    forall tail ensures Lex(u, s + tail) == [Term(kind, v)] + Lex(u, tail) {
      ScansQuote(u, s + tail);
      QuoteStep(u, Scanner(u), kind, first, close, w, tail);
      TokenOf(u, kind, w, v, Lex(u, tail));
    }
  }

  lemma NegationParses(u: Unicode, s: string, kind: Kind, v: string)
    requires Spells(Scanner(u), s, [Term(kind, v)], true) && s != "" && |s| <= 999
    ensures Parse(u, "!" + s) == if kind == Text then None else Some(Some(Not(Leaf(kind, v))))
  {
    NegationSpells(u, s, [Term(kind, v)]);
    var ts := [Bang] + [Term(kind, v)];
    Whole(u, "!" + s, ts, true);
    assert ts[1..] == [Term(kind, v)];
    assert PPrimary(ts[1..], 0) == Done(Leaf(kind, v), [], 1) by { assert [Term(kind, v)][1..] == []; }
    var p := PUnary(ts, 0);
    assert p == if kind == Text then Fail else Done(Not(Leaf(kind, v)), [], 1);
    assert PAnd(ts, 0) == p;
    assert POr(ts, 0) == p;
  }

  /** A tag, comment or path may be negated, a word of text may not. */
  lemma NegatedQuery(u: Unicode, kind: Kind, w: string, v: string)
    requires |w| <= 997
    requires kind == Text ==> Word(w) && Reads(u, w, v)
    requires kind == Tag ==> Unbroken(w) && ReadsTag(u, w, v)
    requires kind == Comment ==> ']' !in w && Reads(u, w, v)
    requires kind == Path ==> '\'' !in w && Reads(u, w, v)
    ensures kind == Text ==> Parse(u, "!" + w) == None
    ensures kind == Tag ==> Parse(u, "!#" + w) == Some(Some(Not(Leaf(Tag, v))))
    ensures kind == Comment ==> Parse(u, "![" + w + "]") == Some(Some(Not(Leaf(Comment, v))))
    ensures kind == Path ==> Parse(u, "!'" + w + "'") == Some(Some(Not(Leaf(Path, v))))
  {
    match kind
    case Text =>
      RawText(u, w, v);
      NegationParses(u, w, Text, v);
    case Tag =>
      RawTag(u, w, v);
      NegationParses(u, "#" + w, Tag, v);
      assert "!" + ("#" + w) == "!#" + w;
    case Comment =>
      RawQuote(u, Comment, w, v);
      NegationParses(u, "[" + w + "]", Comment, v);
      assert "!" + ("[" + w + "]") == "![" + w + "]";
    case Path =>
      RawQuote(u, Path, w, v);
      NegationParses(u, "'" + w + "'", Path, v);
      assert "!" + ("'" + w + "'") == "!'" + w + "'";
  }

  /** The terms that can be written: quoted ones without their closing mark, others of bytes that are spaces or do
      not end a word, a text not beginning like a quote. */
  lemma WritableIff(kind: Kind, value: string)
    ensures value == "" ==> !Writable(kind, value)
    ensures value != "" && kind == Path ==> (Writable(kind, value) <==> '\'' !in value)
    ensures value != "" && kind == Comment ==> (Writable(kind, value) <==> ']' !in value)
    ensures value != "" && kind == Tag ==>
      (Writable(kind, value) <==> forall c | c in value :: c == ' ' || !Breaks(c))
    ensures value != "" && kind == Text ==>
      (Writable(kind, value) <==>
       (forall c | c in value :: c == ' ' || !Breaks(c)) && value[0] != '[' && value[0] != '\'')
  {
    forall c ensures Breaks(c) <==> Delimiter(c) { BreaksIff(c); }
  }

  // ----- Blank and overlong queries -----

  lemma {:induction false} BlankScan(u: Unicode, s: string)
    ensures Lex(u, s) == [] <==> forall i | 0 <= i < |s| :: White(s[i])
  {
    if s != [] {
      if White(s[0]) { BlankScan(u, s[1..]); }
      assert White(s[0]) && (forall i | 0 <= i < |s[1..]| :: White(s[1..][i])) ==>
             forall i | 0 <= i < |s| :: White(s[i]);
    }
  }

  /** A query is blank exactly when it is at most 1000 bytes of white space; longer ones are refused. */
  lemma BlankQuery(u: Unicode, query: string)
    ensures Parse(u, query) == Some(None) <==> |query| <= 1000 && forall i | 0 <= i < |query| :: White(query[i])
    ensures |query| > 1000 ==> Parse(u, query) == None
  {
    BlankScan(u, query);
  }
}
