/** The query parser with its mutable cursor, proved to be the token parse. */
module SearchParser {
  import opened Basics
  import opened SearchSyntax

  /** toks[i] is what remains to be read at byte i. */
  ghost predicate Indexed(u: Unicode, s: string, toks: seq<seq<Token>>) {
    && |toks| == |s| + 1
    && forall i {:trigger Lex(u, s[i..])} | 0 <= i <= |s| :: toks[i] == Lex(u, s[i..])
  }

  /** How the byte at i shows in the tokens. */
  ghost predicate HeadAgrees(s: string, toks: seq<seq<Token>>, i: nat)
    requires |toks| == |s| + 1 && i <= |s|
  {
    && (i == |s| <==> toks[i] == [])
    && (i < |s| ==>
          && (toks[i][0] == Open <==> s[i] == '(') && (toks[i][0] == Close <==> s[i] == ')')
          && (toks[i][0] == Bar <==> s[i] == '|') && (toks[i][0] == Plus <==> s[i] == '+')
          && (toks[i][0] == Bang <==> s[i] == '!')
          && (s[i] in "()|+!" ==> toks[i][1..] == toks[i + 1]))
  }

  lemma LexHead(u: Unicode, s: string)
    requires s != "" && !IsSpace(s[0])
    ensures var ts := Lex(u, s);
      && ts != []
      && (ts[0] == Open <==> s[0] == '(') && (ts[0] == Close <==> s[0] == ')')
      && (ts[0] == Bar <==> s[0] == '|') && (ts[0] == Plus <==> s[0] == '+') && (ts[0] == Bang <==> s[0] == '!')
      && (s[0] in "()|+!" ==> ts[1..] == Lex(u, s[1..]))
  {
  }

  lemma Heads(u: Unicode, s: string, toks: seq<seq<Token>>, i: nat)
    requires Indexed(u, s, toks) && i <= |s| && (i < |s| ==> !IsSpace(s[i]))
    ensures HeadAgrees(s, toks, i)
  {
    assert toks[i] == Lex(u, s[i..]);
    if i < |s| {
      LexHead(u, s[i..]);
      assert s[i..][1..] == s[i + 1..];
      assert toks[i + 1] == Lex(u, s[i + 1..]);
    }
  }

  lemma SpaceSkipped(u: Unicode, s: string, toks: seq<seq<Token>>, i: nat)
    requires Indexed(u, s, toks) && i < |s| && IsSpace(s[i])
    ensures toks[i] == toks[i + 1]
  {
    assert toks[i] == Lex(u, s[i..]);
    assert s[i..][1..] == s[i + 1..];
    assert toks[i + 1] == Lex(u, s[i + 1..]);
  }

  lemma TagSliced(u: Unicode, lex: string -> seq<Token>, s: string, i: nat, end: nat)
    requires i < end <= |s| && AtTag(u, lex, s[i..]) && end == i + 1 + WordLength(s[i + 1..])
    ensures lex(s[i..]) == TermToken(u, Tag, s[i + 1..end], lex(s[end..]))
  {
    assert s[i..][1..] == s[i + 1..];
    assert s[i + 1..][..end - i - 1] == s[i + 1..end];
    assert s[i + 1..][end - i - 1..] == s[end..];
  }

  lemma TagAhead(u: Unicode, s: string, toks: seq<seq<Token>>, i: nat, end: nat)
    requires Indexed(u, s, toks) && i < end <= |s| && s[i] == '#' && end == i + 1 + WordLength(s[i + 1..])
    ensures toks[i] == TermToken(u, Tag, s[i + 1..end], toks[end])
  {
    ScansTag(u, s[i..]);
    TagSliced(u, Scanner(u), s, i, end);
    assert toks[i] == Scanner(u)(s[i..]) && toks[end] == Scanner(u)(s[end..]);
  }

  lemma QuoteSliced(u: Unicode, lex: string -> seq<Token>, s: string, i: nat, end: nat, kind: Kind, close: char)
    requires i < end < |s| && AtQuote(u, lex, s[i..], kind, close) && end == i + 1 + IndexOf(s[i + 1..], close)
    ensures lex(s[i..]) == TermToken(u, kind, s[i + 1..end], lex(s[end + 1..]))
  {
    assert s[i..][1..] == s[i + 1..];
    assert s[i + 1..][..end - i - 1] == s[i + 1..end];
    assert s[i + 1..][end - i..] == s[end + 1..];
  }

  lemma QuotedAhead(u: Unicode, s: string, toks: seq<seq<Token>>, i: nat, end: nat)
    requires Indexed(u, s, toks) && i < end < |s| && (s[i] == '[' || s[i] == '\'')
    requires end == i + 1 + IndexOf(s[i + 1..], if s[i] == '[' then ']' else '\'')
    ensures toks[i] == TermToken(u, if s[i] == '[' then Comment else Path, s[i + 1..end], toks[end + 1])
  {
    ScansQuote(u, s[i..]);
    QuoteSliced(u, Scanner(u), s, i, end, if s[i] == '[' then Comment else Path, if s[i] == '[' then ']' else '\'');
    assert toks[i] == Scanner(u)(s[i..]) && toks[end + 1] == Scanner(u)(s[end + 1..]);
  }

  lemma Unterminated(u: Unicode, s: string, toks: seq<seq<Token>>, i: nat)
    requires Indexed(u, s, toks) && i < |s| && (s[i] == '[' || s[i] == '\'')
    requires |s| == i + 1 + IndexOf(s[i + 1..], if s[i] == '[' then ']' else '\'')
    ensures toks[i] == [Bad]
  {
    assert s[i..][1..] == s[i + 1..];
    assert toks[i] == Lex(u, s[i..]);
  }

  lemma WordAhead(u: Unicode, s: string, toks: seq<seq<Token>>, i: nat, end: nat)
    requires Indexed(u, s, toks) && i < |s| && i <= end <= |s| && end == i + WordLength(s[i..])
    requires !IsSpace(s[i]) && s[i] !in "()|+!#['"
    ensures toks[i] == TermToken(u, Text, s[i..end], toks[end]) && end > i
  {
    assert toks[i] == Lex(u, s[i..]);
    assert toks[end] == Lex(u, s[end..]);
    assert s[i..][..end - i] == s[i..end];
    assert s[i..][end - i..] == s[end..];
  }

  class Parser {
    const u: Unicode
    const value: string
    var pos: nat
    var terms: nat
    ghost const toks: seq<seq<Token>>

    constructor (u: Unicode, value: string)
      ensures this.u == u && this.value == value && pos == 0 && terms == 0 && Valid() && Ahead() == Lex(u, value)
    {
      this.u, this.value := u, value;
      pos, terms := 0, 0;
      toks := seq(|value| + 1, i requires 0 <= i <= |value| => Lex(u, value[i..]));
      new;
      assert value[0..] == value;
    }

    ghost predicate Valid()
      reads this
    {
      pos <= |value| && Indexed(u, value, toks)
    }

    ghost function Ahead(): seq<Token>
      reads this
      requires Valid()
    {
      toks[pos]
    }

    /** The outcome and the new cursor are those of the token parse p. */
    ghost predicate Matches(p: Parsed, r: Option<Node>)
      reads this
    {
      && Valid()
      && (r.None? <==> p.Fail?)
      && (p.Done? ==> r == Some(p.node) && Ahead() == p.rest && terms == p.terms)
    }

    method SkipSpace()
      requires Valid()
      modifies this`pos
      ensures Valid() && pos >= old(pos) && Ahead() == old(Ahead())
      ensures pos < |value| ==> !IsSpace(value[pos])
      ensures HeadAgrees(value, toks, pos)
    {
      while pos < |value| && IsSpace(value[pos])
        invariant Valid() && pos >= old(pos) && Ahead() == old(Ahead())
        decreases |value| - pos
      {
        SpaceSkipped(u, value, toks, pos);
        pos := pos + 1;
      }
      Heads(u, value, toks, pos);
    }

    function Peek(): char
      reads this
      requires Valid()
    {
      if pos == |value| then 0 as char else value[pos]
    }

    method Consume(c: char) returns (found: bool)
      requires Valid() && c != 0 as char
      modifies this`pos
      ensures Valid()
      ensures found == (old(pos) < |value| && value[old(pos)] == c)
      ensures pos == old(pos) + if found then 1 else 0
    {
      if Peek() != c {
        return false;
      }
      pos := pos + 1;
      found := true;
    }

    method ParseOr() returns (r: Option<Node>)
      requires Valid()
      modifies this`pos, this`terms
      ensures Matches(POr(old(Ahead()), old(terms)), r)
      ensures pos >= old(pos) && (r.Some? ==> pos > old(pos))
      decreases |value| - pos, 3
    {
      r := ParseAnd();
      if r.None? {
        return;
      }
      var left := r.value;
      while true
        invariant Valid() && pos > old(pos)
        invariant POr(old(Ahead()), old(terms)) == POrRest(left, Ahead(), terms)
        decreases |value| - pos
      {
        SkipSpace();
        var bar := Consume('|');
        if !bar {
          return Some(left);
        }
        var right := ParseAnd();
        if right.None? {
          return None;
        }
        left := Or(left, right.value);
      }
    }

    method ParseAnd() returns (r: Option<Node>)
      requires Valid()
      modifies this`pos, this`terms
      ensures Matches(PAnd(old(Ahead()), old(terms)), r)
      ensures pos >= old(pos) && (r.Some? ==> pos > old(pos))
      decreases |value| - pos, 2
    {
      r := ParseUnary();
      if r.None? {
        return;
      }
      var left := r.value;
      while true
        invariant Valid() && pos > old(pos)
        invariant PAnd(old(Ahead()), old(terms)) == PAndRest(left, Ahead(), terms)
        decreases |value| - pos
      {
        SkipSpace();
        if Peek() == '|' || Peek() == ')' || pos == |value| {
          return Some(left);
        }
        var plus := Consume('+');
        var right := ParseUnary();
        if right.None? {
          return None;
        }
        left := And(left, right.value);
      }
    }

    method ParseUnary() returns (r: Option<Node>)
      requires Valid()
      modifies this`pos, this`terms
      ensures Matches(PUnary(old(Ahead()), old(terms)), r)
      ensures pos >= old(pos) && (r.Some? ==> pos > old(pos))
      decreases |value| - pos, 1
    {
      SkipSpace();
      var bang := Consume('!');
      if bang {
        var term := ParsePrimary();
        if term.None? || !Negatable(term.value) {
          return None;
        }
        return Some(Not(term.value));
      }
      r := ParsePrimary();
    }

    method ParsePrimary() returns (r: Option<Node>)
      requires Valid()
      modifies this`pos, this`terms
      ensures Matches(PPrimary(old(Ahead()), old(terms)), r)
      ensures pos >= old(pos) && (r.Some? ==> pos > old(pos))
      decreases |value| - pos, 0
    {
      SkipSpace();
      var open := Consume('(');
      if open {
        r := ParseOr();
        if r.None? {
          return;
        }
        SkipSpace();
        var close := Consume(')');
        if !close {
          return None;
        }
        return;
      }
      if pos == |value| || Peek() == ')' || Peek() == '|' || Peek() == '+' {
        return None;
      }
      r := ParseTerm();
    }

    method ScanWord()
      requires Valid()
      modifies this`pos
      ensures pos == old(pos) + WordLength(value[old(pos)..]) <= |value|
    {
      while pos < |value| && !Delimiter(value[pos])
        invariant Valid() && pos >= old(pos)
        invariant WordLength(value[old(pos)..]) == pos - old(pos) + WordLength(value[pos..])
        decreases |value| - pos
      {
        assert value[pos..][1..] == value[pos + 1..];
        pos := pos + 1;
      }
    }

    /** The term that starts at the cursor. */
    method ParseTerm() returns (r: Option<Node>)
      requires Valid() && pos < |value| && !IsSpace(value[pos]) && value[pos] !in "()|+" && HeadAgrees(value, toks, pos)
      modifies this`pos, this`terms
      ensures Matches(PPrimary(old(Ahead()), old(terms)), r)
      ensures pos >= old(pos) && (r.Some? ==> pos > old(pos))
    {
      // A second '!' is itself a delimiter, so the text term it would start is empty.
      if Peek() == '!' {
        return None;
      }
      var kind, term := ScanTerm();
      if term.None? {
        return None;
      }
      terms := terms + 1;
      if terms > 20 {
        return None;
      }
      r := Some(Leaf(kind, term.value));
    }

    /** Reads one term; None for an invalid or unterminated one. */
    method ScanTerm() returns (kind: Kind, term: Option<string>)
      requires Valid() && pos < |value| && !IsSpace(value[pos]) && value[pos] !in "()|+!"
      modifies this`pos
      ensures Valid() && pos > old(pos)
      ensures term.None? ==> old(Ahead()) == [Bad]
      ensures term.Some? ==> old(Ahead()) == [Term(kind, term.value)] + Ahead()
    {
      if Peek() == '#' {
        kind := Tag;
        term := ScanTag();
      } else if Peek() == '[' || Peek() == '\'' {
        kind := if Peek() == '[' then Comment else Path;
        term := ScanQuoted();
      } else {
        kind := Text;
        term := ScanText();
      }
    }

    method ScanTag() returns (term: Option<string>)
      requires Valid() && pos < |value| && value[pos] == '#'
      modifies this`pos
      ensures Valid() && pos > old(pos)
      ensures term.None? ==> old(Ahead()) == [Bad]
      ensures term.Some? ==> old(Ahead()) == [Term(Tag, term.value)] + Ahead()
    {
      ghost var start := pos;
      pos := pos + 1;
      var first := pos;
      ScanWord();
      TagAhead(u, value, toks, start, pos);
      term := CleanTag(u, Normalize(u, value[first..pos]));
    }

    method ScanQuoted() returns (term: Option<string>)
      requires Valid() && pos < |value| && (value[pos] == '[' || value[pos] == '\'')
      modifies this`pos
      ensures Valid() && pos > old(pos)
      ensures term.None? ==> old(Ahead()) == [Bad]
      ensures term.Some? ==>
        old(Ahead()) == [Term(if value[old(pos)] == '[' then Comment else Path, term.value)] + Ahead()
    {
      ghost var start := pos;
      var closing := if Peek() == '\'' then '\'' else ']';
      pos := pos + 1;
      var end := IndexOf(value[pos..], closing);
      if pos + end == |value| {
        Unterminated(u, value, toks, start);
        return None;
      }
      QuotedAhead(u, value, toks, start, pos + end);
      term := BoundedTerm(u, value[pos..pos + end]);
      pos := pos + end + 1;
    }

    method ScanText() returns (term: Option<string>)
      requires Valid() && pos < |value| && !IsSpace(value[pos]) && value[pos] !in "()|+!#['"
      modifies this`pos
      ensures Valid() && pos > old(pos)
      ensures term.None? ==> old(Ahead()) == [Bad]
      ensures term.Some? ==> old(Ahead()) == [Term(Text, term.value)] + Ahead()
    {
      var first := pos;
      ScanWord();
      WordAhead(u, value, toks, first, pos);
      term := BoundedTerm(u, value[first..pos]);
    }
  }

  /** parseImageSearch: None for an invalid query, Some(None) for a blank one. */
  method ParseImageSearch(u: Unicode, value: string) returns (r: Option<Option<Node>>)
    ensures r == Parse(u, value)
  {
    if |value| > 1000 {
      return None;
    }
    var parser := new Parser(u, value);
    parser.SkipSpace();
    if parser.pos == |value| {
      return Some(None);
    }
    var root := parser.ParseOr();
    if root.None? {
      return None;
    }
    parser.SkipSpace();
    if parser.pos != |value| {
      return None;
    }
    return Some(root);
  }
}
