/** The encoder's loops, proved to compute Lexical.VectorOf. */
module Vectorizer {
  import opened Basics
  import opened Lexical
  import LexicalTerms
  import opened Sums
  import Ranking

  /** after is before with weight added once per occurrence in bag. */
  ghost predicate Added(before: map<string, real>, after: map<string, real>, bag: multiset<string>, weight: real) {
    && (forall t :: t in after <==> t in before || t in bag)
    && (forall t :: Value(after, t) == Value(before, t) + Times(weight, bag[t] as real))
  }

  lemma AddedMore(before: map<string, real>, mid: map<string, real>, after: map<string, real>,
                  a: multiset<string>, b: multiset<string>, weight: real)
    requires Added(before, mid, a, weight) && Added(mid, after, b, weight)
    ensures Added(before, after, a + b, weight)
  {
    forall t ensures Value(after, t) == Value(before, t) + Times(weight, (a + b)[t] as real) {
      Distribute(weight, a[t] as real, b[t] as real);
    }
  }

  method AddTerm(term: string, weight: real, before: map<string, real>) returns (frequencies: map<string, real>)
    ensures Added(before, frequencies, multiset{term}, weight)
  {
    frequencies := before[term := Value(before, term) + weight];
  }

  method AddWord(lex: Lexicon, word: string, weight: real, before: map<string, real>)
    returns (frequencies: map<string, real>)
    ensures Added(before, frequencies, multiset(WordTerm(lex, word)), weight)
  {
    frequencies := before;
    if Kept(lex, word) {
      frequencies := AddTerm("w:" + word, weight, before);
      assert multiset(WordTerm(lex, word)) == multiset{"w:" + word};
    }
  }

  lemma {:induction false} WordPrefix(lex: Lexicon, words: seq<string>, k: nat)
    requires k < |words|
    ensures multiset(WordTerms(lex, words[..k + 1])) == multiset(WordTerms(lex, words[..k]))
      + multiset(WordTerm(lex, words[k]))
  {
    if k == 0 {
      assert words[..1][1..] == [];
    } else {
      WordPrefix(lex, words[1..], k - 1);
      assert words[..k + 1][1..] == words[1..][..k];
      assert words[..k][1..] == words[1..][..k - 1];
    }
  }

  lemma {:induction false} BagPrefix(terms: string -> seq<string>, texts: seq<string>, k: nat)
    requires k < |texts|
    ensures BagOf(terms, texts[..k + 1]) == BagOf(terms, texts[..k]) + multiset(terms(texts[k]))
  {
    if k == 0 {
      assert texts[..1][1..] == [];
    } else {
      BagPrefix(terms, texts[1..], k - 1);
      assert texts[..k + 1][1..] == texts[1..][..k];
      assert texts[..k][1..] == texts[1..][..k - 1];
    }
  }

  /** Adds one text's surviving words to the table. */
  method AddWords(lex: Lexicon, text: string, weight: real, before: map<string, real>)
    returns (frequencies: map<string, real>)
    ensures Added(before, frequencies, multiset(WordTerms(lex, Words(lex, text))), weight)
  {
    frequencies := before;
    var words := Words(lex, text);
    for k := 0 to |words|
      invariant Added(before, frequencies, multiset(WordTerms(lex, words[..k])), weight)
    {
      var more := AddWord(lex, words[k], weight, frequencies);
      AddedMore(before, frequencies, more, multiset(WordTerms(lex, words[..k])), multiset(WordTerm(lex, words[k])),
                weight);
      WordPrefix(lex, words, k);
      frequencies := more;
    }
    assert words[..|words|] == words;
  }

  lemma TaggedTerm(tagWeight: real, tagged: multiset<string>, bag: multiset<string>, t: string)
    ensures Frequency(tagWeight, tagged + bag, multiset{}, t) == Frequency(tagWeight, tagged, multiset{}, t)
      + Times(tagWeight, bag[t] as real)
  {
    Distribute(tagWeight, tagged[t] as real, bag[t] as real);
    assert (tagged + bag)[t] as real == tagged[t] as real + bag[t] as real;
  }

  lemma TaggedMore(tagWeight: real, tagged: multiset<string>, after: map<string, real>, bag: multiset<string>)
    requires Added(Frequencies(tagWeight, tagged, multiset{}), after, bag, tagWeight)
    ensures after == Frequencies(tagWeight, tagged + bag, multiset{})
  {
    forall t | t in after ensures after[t] == Frequency(tagWeight, tagged + bag, multiset{}, t) {
      assert Value(after, t) == after[t];
      FrequencyValue(tagWeight, tagged, multiset{}, t);
      TaggedTerm(tagWeight, tagged, bag, t);
    }
  }

  lemma SaidMore(tagWeight: real, tagged: multiset<string>, said: multiset<string>, after: map<string, real>,
                 bag: multiset<string>)
    requires Added(Frequencies(tagWeight, tagged, said), after, bag, 1.0)
    ensures after == Frequencies(tagWeight, tagged, said + bag)
  {
    forall t | t in after ensures after[t] == Frequency(tagWeight, tagged, said + bag, t) {
      assert Value(after, t) == after[t];
      FrequencyValue(tagWeight, tagged, said, t);
      assert Times(1.0, bag[t] as real) == bag[t] as real;
      assert (said + bag)[t] == said[t] + bag[t];
    }
  }

  lemma TagBag(lex: Lexicon, tag: string)
    ensures multiset(TagTerms(lex)(tag)) == multiset(WordTerms(lex, Words(lex, tag)))
      + multiset(PhraseTerms(Words(lex, tag)))
  {
  }

  method AddTag(lex: Lexicon, tagWeight: real, tag: string, before: map<string, real>)
    returns (frequencies: map<string, real>)
    ensures Added(before, frequencies, multiset(TagTerms(lex)(tag)), tagWeight)
  {
    frequencies := AddWords(lex, tag, tagWeight, before);
    TagBag(lex, tag);
    var words := Words(lex, tag);
    var more := AddPhrase(words, tagWeight, frequencies);
    AddedMore(before, frequencies, more, multiset(WordTerms(lex, words)), multiset(PhraseTerms(words)), tagWeight);
    frequencies := more;
  }

  method AddPhrase(words: seq<string>, tagWeight: real, before: map<string, real>)
    returns (frequencies: map<string, real>)
    ensures Added(before, frequencies, multiset(PhraseTerms(words)), tagWeight)
  {
    frequencies := before;
    var phrase := Join(" ", words);
    if phrase != "" && ByteLen(phrase) <= MAX_WORD_BYTES {
      frequencies := AddTerm("t:" + phrase, tagWeight, before);
      assert multiset(PhraseTerms(words)) == multiset{"t:" + phrase};
    }
  }

  method CountTags(lex: Lexicon, tagWeight: real, tags: seq<string>) returns (frequencies: map<string, real>)
    ensures frequencies == Frequencies(tagWeight, BagOf(TagTerms(lex), tags), multiset{})
  {
    frequencies := map[];
    for i := 0 to |tags|
      invariant frequencies == Frequencies(tagWeight, BagOf(TagTerms(lex), tags[..i]), multiset{})
    {
      var more := AddTag(lex, tagWeight, tags[i], frequencies);
      TaggedMore(tagWeight, BagOf(TagTerms(lex), tags[..i]), more, multiset(TagTerms(lex)(tags[i])));
      BagPrefix(TagTerms(lex), tags, i);
      frequencies := more;
    }
    assert tags[..|tags|] == tags;
  }

  method CountTerms(lex: Lexicon, tagWeight: real, source: Source) returns (frequencies: map<string, real>)
    ensures frequencies == SourceFrequencies(lex, tagWeight, source)
  {
    frequencies := CountTags(lex, tagWeight, source.tags);
    var comments := source.comments;
    ghost var tagged := BagOf(TagTerms(lex), source.tags);
    for i := 0 to |comments|
      invariant frequencies == Frequencies(tagWeight, tagged, BagOf(CommentTerms(lex), comments[..i]))
    {
      var more := AddWords(lex, comments[i], 1.0, frequencies);
      SaidMore(tagWeight, tagged, BagOf(CommentTerms(lex), comments[..i]), more,
               multiset(CommentTerms(lex)(comments[i])));
      BagPrefix(CommentTerms(lex), comments, i);
      frequencies := more;
    }
    assert comments[..|comments|] == comments;
  }

  /** Damping is strictly increasing, so ordering damped weights is ordering raw ones. */
  lemma SameOrder(m: Calculus, f: map<string, real>, terms: seq<string>)
    requires Lawful(m) && forall t | t in f :: f[t] > 0.0
    requires Ranking.Lists(TermOrder(Logarithms(m, f)), terms, f.Keys)
    ensures Ranking.Lists(TermOrder(f), terms, f.Keys)
  {
    var logs := Logarithms(m, f);
    forall i, j | 0 <= i < j < |terms| ensures TermOrder(f)(terms[i], terms[j]) {
      assert terms[i] in Ranking.Elements(terms) && terms[j] in Ranking.Elements(terms);
      assert TermOrder(logs)(terms[i], terms[j]);
      var x, y := f[terms[i]], f[terms[j]];
      LogOrder(m, x, y);
    }
  }

  lemma LogOrder(m: Calculus, x: real, y: real)
    requires Lawful(m) && x > 0.0 && y > 0.0
    ensures m.log1p(x) < m.log1p(y) <==> x < y
    ensures m.log1p(x) == m.log1p(y) <==> x == y
  {
    if x < y { assert m.log1p(x) < m.log1p(y); }
    if y < x { assert m.log1p(y) < m.log1p(x); }
  }

  /** Damps every count, visiting the table in any order, and lists its terms. */
  method Damp(m: Calculus, frequencies: map<string, real>) returns (logs: map<string, real>, terms: seq<string>)
    ensures logs == Logarithms(m, frequencies)
    ensures Ranking.Distinct(terms) && Ranking.Elements(terms) == frequencies.Keys
  {
    var pending := frequencies.Keys;
    logs, terms := frequencies, [];
    while pending != {}
      invariant pending <= frequencies.Keys && logs.Keys == frequencies.Keys
      invariant forall t | t in frequencies :: logs[t] == if t in pending then frequencies[t]
        else m.log1p(frequencies[t])
      invariant Ranking.Distinct(terms) && Ranking.Elements(terms) == frequencies.Keys - pending
      decreases pending
    {
      var term :| term in pending;
      assert term !in Ranking.Elements(terms);
      logs := logs[term := m.log1p(frequencies[term])];
      assert Ranking.Elements(terms + [term]) == Ranking.Elements(terms) + {term};
      terms := terms + [term];
      pending := pending - {term};
    }
  }

  lemma TopOf(m: Calculus, f: map<string, real>, terms: seq<string>)
    requires Lawful(m) && forall t | t in f :: f[t] > 0.0
    requires Ranking.Lists(TermOrder(Logarithms(m, f)), terms, f.Keys)
    ensures Ranking.Take(MAX_TERMS, terms) == TopTerms(f)
  {
    SameOrder(m, f, terms);
    TermOrderTotal(f);
    Ranking.ListsUnique(TermOrder(f), terms, Ranking.Ranked(TermOrder(f), f.Keys), f.Keys);
  }

  method SumSquares(logs: map<string, real>, terms: seq<string>) returns (norm: real)
    requires Ranking.Distinct(terms) && Ranking.Elements(terms) <= logs.Keys
    ensures norm == SquaredLength(logs, Ranking.Elements(terms))
  {
    norm := 0.0;
    for k := 0 to |terms|
      invariant norm == Sum(Ranking.Elements(terms[..k]), SquareOf(logs))
    {
      assert terms[k] in Ranking.Elements(terms);
      assert terms[..k + 1] == terms[..k] + [terms[k]];
      assert Ranking.Elements(terms[..k + 1]) - {terms[k]} == Ranking.Elements(terms[..k]);
      SumPick(Ranking.Elements(terms[..k + 1]), SquareOf(logs), terms[k]);
      norm := norm + Times(logs[terms[k]], logs[terms[k]]);
    }
    assert terms[..|terms|] == terms;
  }

  method Scale(logs: map<string, real>, terms: seq<string>, root: real) returns (result: map<string, real>)
    requires root > 0.0 && Ranking.Elements(terms) <= logs.Keys
    ensures result == map term | term in Ranking.Elements(terms) :: Value(logs, term) / root
  {
    result := map[];
    for k := 0 to |terms|
      invariant result.Keys == Ranking.Elements(terms[..k])
      invariant forall t | t in result :: result[t] == Value(logs, t) / root
    {
      assert terms[k] in Ranking.Elements(terms);
      assert terms[..k + 1] == terms[..k] + [terms[k]];
      result := result[terms[k] := logs[terms[k]] / root];
    }
    assert terms[..|terms|] == terms;
  }

  method RankTerms(m: Calculus, frequencies: map<string, real>) returns (logs: map<string, real>, terms: seq<string>)
    requires Lawful(m) && forall t | t in frequencies :: frequencies[t] > 0.0
    ensures logs == Logarithms(m, frequencies) && terms == TopTerms(frequencies)
    ensures Ranking.Distinct(terms) && Ranking.Elements(terms) <= logs.Keys
  {
    logs, terms := Damp(m, frequencies);
    TermOrderTotal(logs);
    Ranking.SortSeqLists(TermOrder(logs), terms);
    terms := Ranking.SortSeq(TermOrder(logs), terms);
    Ranking.SortedDistinct(TermOrder(logs), terms);
    TopOf(m, frequencies, terms);
    TopTermsShape(frequencies);
    terms := Ranking.Take(MAX_TERMS, terms);
  }

  /** Count, damp, sort, truncate, normalize. */
  method Vectorize(lex: Lexicon, m: Calculus, tagWeight: real, source: Source) returns (result: map<string, real>)
    requires Lawful(m) && tagWeight > 0.0
    ensures result == VectorOf(lex, m, tagWeight, source)
    ensures forall term | term in result :: LexicalTerms.HasTerm(lex, source, term)
    ensures result == map[] <==> forall term :: !LexicalTerms.HasTerm(lex, source, term)
  {
    LexicalTerms.VectorTerms(lex, m, tagWeight, source);
    var frequencies := CountTerms(lex, tagWeight, source);
    FrequenciesPositive(tagWeight, BagOf(TagTerms(lex), source.tags), BagOf(CommentTerms(lex), source.comments));
    var logs, terms := RankTerms(m, frequencies);
    var norm := SumSquares(logs, terms);
    if norm == 0.0 {
      return map[];
    }
    RootPositive(m, norm);
    result := Scale(logs, terms, m.sqrt(norm));
  }
}
