/** Which terms a vector holds, said of the texts themselves: the words of a text are its maximal runs
    of word code points, and a source's raw frequencies count them. */
module LexicalTerms {
  import opened Basics
  import opened Lexical
  import opened Sums
  import Ranking

  // ----- The words of a text, by position -----

  /** s is the text in lower case. */
  ghost predicate InLowerCase(lex: Lexicon, text: string, s: string) {
    |s| == |text| && forall i | 0 <= i < |text| :: s[i] == lex.lower(text[i])
  }

  ghost predicate WordAt(lex: Lexicon, s: string, k: int) {
    0 <= k < |s| && lex.isWordRune(s[k])
  }

  /** s[i..j] is a run of word code points that neither end can extend. */
  ghost predicate MaximalRun(lex: Lexicon, s: string, i: int, j: int) {
    && 0 <= i < j <= |s|
    && (forall k | i <= k < j :: WordAt(lex, s, k))
    && !WordAt(lex, s, i - 1)
    && !WordAt(lex, s, j)
  }

  ghost predicate Covered(runs: seq<(int, int)>, k: int) {
    exists r | 0 <= r < |runs| :: runs[r].0 <= k < runs[r].1
  }

  /** All the maximal runs of s from position n on, from left to right. */
  ghost predicate AllRuns(lex: Lexicon, s: string, n: int, runs: seq<(int, int)>) {
    && (forall r | 0 <= r < |runs| :: n <= runs[r].0 && MaximalRun(lex, s, runs[r].0, runs[r].1))
    && (forall q, r | 0 <= q < r < |runs| :: runs[q].1 <= runs[r].0)
    && (forall k | n <= k && WordAt(lex, s, k) :: Covered(runs, k))
  }

  ghost predicate Cuts(s: string, runs: seq<(int, int)>, words: seq<string>) {
    && |words| == |runs|
    && forall r | 0 <= r < |runs| :: 0 <= runs[r].0 <= runs[r].1 <= |s| && words[r] == s[runs[r].0..runs[r].1]
  }

  /** words are the words of a text, in order. */
  ghost predicate WordsOf(lex: Lexicon, text: string, words: seq<string>) {
    exists s, runs :: InLowerCase(lex, text, s) && AllRuns(lex, s, 0, runs) && Cuts(s, runs, words)
  }

  lemma FieldsFrom(lex: Lexicon, s: string, n: nat)
    requires n < |s|
    ensures !lex.isWordRune(s[n]) ==> Fields(lex, s[n..]) == Fields(lex, s[n + 1..])
    ensures lex.isWordRune(s[n]) ==>
              var m := n + RunLength(lex, s[n..]);
              n < m <= |s| && Fields(lex, s[n..]) == [s[n..m]] + Fields(lex, s[m..])
  {
    var t, l := s[n..], RunLength(lex, s[n..]);
    assert t[1..] == s[n + 1..] && t[..l] == s[n..n + l] && t[l..] == s[n + l..];
  }

  /** The scan of a text from a position where no run is under way finds all the maximal runs ahead. */
  lemma {:induction false} FieldsAreRuns(lex: Lexicon, s: string, n: nat) returns (runs: seq<(int, int)>)
    requires n <= |s| && (WordAt(lex, s, n) ==> !WordAt(lex, s, n - 1))
    ensures AllRuns(lex, s, n, runs) && Cuts(s, runs, Fields(lex, s[n..]))
    decreases |s| - n
  {
    if n == |s| {
      runs := [];
    } else if !lex.isWordRune(s[n]) {
      FieldsFrom(lex, s, n);
      runs := FieldsAreRuns(lex, s, n + 1);
    } else {
      var m := n + RunLength(lex, s[n..]);
      FieldsFrom(lex, s, n);
      RunHere(lex, s, n, m);
      var rest := FieldsAreRuns(lex, s, m);
      runs := [(n, m)] + rest;
      FirstRun(lex, s, n, m, rest);
    }
  }

  lemma RunHere(lex: Lexicon, s: string, n: nat, m: nat)
    requires WordAt(lex, s, n) && !WordAt(lex, s, n - 1) && m == n + RunLength(lex, s[n..])
    ensures MaximalRun(lex, s, n, m)
  {
    forall k | n <= k < m ensures WordAt(lex, s, k) {
      assert s[n..][k - n] == s[k];
    }
    if m < |s| { assert s[n..][m - n] == s[m]; }
  }

  lemma FirstRun(lex: Lexicon, s: string, n: nat, m: nat, rest: seq<(int, int)>)
    requires MaximalRun(lex, s, n, m) && AllRuns(lex, s, m, rest)
    ensures AllRuns(lex, s, n, [(n, m)] + rest)
  {
    var runs := [(n, m)] + rest;
    forall k | n <= k && WordAt(lex, s, k) ensures Covered(runs, k) {
      if k < m {
        assert runs[0].0 <= k < runs[0].1;
      } else {
        assert Covered(rest, k);
        var r :| 0 <= r < |rest| && rest[r].0 <= k < rest[r].1;
        assert runs[r + 1] == rest[r];
      }
    }
  }

  // ----- A text has one list of words -----

  /** Two maximal runs that share a position are the same. */
  lemma SameRun(lex: Lexicon, s: string, a: (int, int), b: (int, int), k: int)
    requires MaximalRun(lex, s, a.0, a.1) && MaximalRun(lex, s, b.0, b.1)
    requires a.0 <= k < a.1 && b.0 <= k < b.1
    ensures a == b
  {
  }

  lemma {:induction false} RunsUnique(lex: Lexicon, s: string, n: int, a: seq<(int, int)>, b: seq<(int, int)>)
    requires AllRuns(lex, s, n, a) && AllRuns(lex, s, n, b)
    ensures a == b
    decreases |a|
  {
    if a == [] {
      if b != [] { FirstCovered(lex, s, n, b, a); }
    } else {
      FirstCovered(lex, s, n, a, b);
      FirstCovered(lex, s, n, b, a);
      FirstAgrees(lex, s, n, a, b);
      LaterRuns(lex, s, n, a);
      LaterRuns(lex, s, n, b);
      RunsUnique(lex, s, a[0].1, a[1..], b[1..]);
    }
  }

  lemma FirstCovered(lex: Lexicon, s: string, n: int, a: seq<(int, int)>, b: seq<(int, int)>)
    requires AllRuns(lex, s, n, a) && AllRuns(lex, s, n, b) && a != []
    ensures b != [] && b[0].0 <= a[0].0
  {
    assert MaximalRun(lex, s, a[0].0, a[0].1);
    assert Covered(b, a[0].0);
    var r :| 0 <= r < |b| && b[r].0 <= a[0].0 < b[r].1;
    if r > 0 { assert MaximalRun(lex, s, b[0].0, b[0].1); }
  }

  lemma FirstAgrees(lex: Lexicon, s: string, n: int, a: seq<(int, int)>, b: seq<(int, int)>)
    requires AllRuns(lex, s, n, a) && AllRuns(lex, s, n, b) && a != [] && b != [] && a[0].0 == b[0].0
    ensures a[0] == b[0]
  {
    SameRun(lex, s, a[0], b[0], a[0].0);
  }

  lemma LaterRuns(lex: Lexicon, s: string, n: int, runs: seq<(int, int)>)
    requires AllRuns(lex, s, n, runs) && runs != []
    ensures AllRuns(lex, s, runs[0].1, runs[1..])
  {
    var m, rest := runs[0].1, runs[1..];
    assert MaximalRun(lex, s, runs[0].0, runs[0].1);
    forall k | m <= k && WordAt(lex, s, k) ensures Covered(rest, k) {
      assert Covered(runs, k);
      var r :| 0 <= r < |runs| && runs[r].0 <= k < runs[r].1;
      assert rest[r - 1] == runs[r];
    }
  }

  /** A text's words are determined by its maximal runs, and are what the vectorizer splits it into. */
  lemma WordsAreWords(lex: Lexicon, text: string, words: seq<string>)
    ensures WordsOf(lex, text, words) <==> words == Words(lex, text)
  {
    var s := Lower(lex, text);
    assert InLowerCase(lex, text, s);
    assert s[0..] == s;
    var runs := FieldsAreRuns(lex, s, 0);
    assert WordsOf(lex, text, Words(lex, text));
    if WordsOf(lex, text, words) {
      var t, other :| InLowerCase(lex, text, t) && AllRuns(lex, t, 0, other) && Cuts(t, other, words);
      assert s == t;
      RunsUnique(lex, s, 0, runs, other);
    }
  }

  // ----- How often a source has a term -----

  /** How often w occurs among the words of several texts. */
  function Occurrences(words: seq<seq<string>>, w: string): nat {
    if words == [] then 0 else multiset(words[0])[w] + Occurrences(words[1..], w)
  }

  /** How many of several lists of words, joined by single spaces, read p. */
  function Phrases(words: seq<seq<string>>, p: string): nat {
    if words == [] then 0 else (if Join(" ", words[0]) == p then 1 else 0) + Phrases(words[1..], p)
  }

  ghost predicate AllWordsOf(lex: Lexicon, texts: seq<string>, words: seq<seq<string>>) {
    |words| == |texts| && forall k | 0 <= k < |texts| :: WordsOf(lex, texts[k], words[k])
  }

  /** Long enough, short enough and no stop word. */
  ghost predicate Indexable(lex: Lexicon, w: string) {
    |w| >= 2 && ByteLen(w) <= 128 && w !in lex.stopWords
  }

  lemma {:induction false} WordTermCount(lex: Lexicon, words: seq<string>, w: string)
    ensures multiset(WordTerms(lex, words))["w:" + w] == if Indexable(lex, w) then multiset(words)[w] else 0
    ensures multiset(WordTerms(lex, words))["t:" + w] == 0
  {
    if words != [] {
      WordTermCount(lex, words[1..], w);
      OneWord(lex, words[0], w);
      assert words == [words[0]] + words[1..];
    }
  }

  lemma OneWord(lex: Lexicon, word: string, w: string)
    ensures multiset(WordTerm(lex, word))["w:" + w] == if word == w && Indexable(lex, w) then 1 else 0
    ensures multiset(WordTerm(lex, word))["t:" + w] == 0
  {
    assert ("w:" + word)[2..] == word && ("w:" + w)[2..] == w;
    assert ("w:" + word)[0] == 'w' && ("t:" + w)[0] == 't';
  }

  lemma PhraseTermCount(words: seq<string>, w: string)
    ensures multiset(PhraseTerms(words))["t:" + w]
      == if Join(" ", words) == w && w != "" && ByteLen(w) <= 128 then 1 else 0
    ensures multiset(PhraseTerms(words))["w:" + w] == 0
  {
    var phrase := Join(" ", words);
    assert ("t:" + phrase)[2..] == phrase && ("t:" + w)[2..] == w;
    assert ("t:" + phrase)[0] == 't' && ("w:" + w)[0] == 'w';
  }

  lemma TagTermCount(lex: Lexicon, tag: string, words: seq<string>, w: string)
    requires WordsOf(lex, tag, words)
    ensures multiset(TagTerms(lex)(tag))["w:" + w] == if Indexable(lex, w) then multiset(words)[w] else 0
    ensures multiset(TagTerms(lex)(tag))["t:" + w]
      == if Join(" ", words) == w && w != "" && ByteLen(w) <= 128 then 1 else 0
  {
    WordsAreWords(lex, tag, words);
    WordTermCount(lex, words, w);
    PhraseTermCount(words, w);
  }

  lemma {:induction false} CountWords(terms: string -> seq<string>, texts: seq<string>, words: seq<seq<string>>,
                                      w: string, term: string, indexable: bool)
    requires |words| == |texts|
    requires forall k | 0 <= k < |texts| ::
               multiset(terms(texts[k]))[term] == if indexable then multiset(words[k])[w] else 0
    ensures BagOf(terms, texts)[term] == if indexable then Occurrences(words, w) else 0
  {
    if texts != [] {
      CountWords(terms, texts[1..], words[1..], w, term, indexable);
    }
  }

  lemma {:induction false} CountPhrases(terms: string -> seq<string>, texts: seq<string>, words: seq<seq<string>>,
                                        p: string, term: string, indexable: bool)
    requires |words| == |texts|
    requires forall k | 0 <= k < |texts| ::
               multiset(terms(texts[k]))[term] == if indexable && Join(" ", words[k]) == p then 1 else 0
    ensures BagOf(terms, texts)[term] == if indexable then Phrases(words, p) else 0
  {
    if texts != [] {
      CountPhrases(terms, texts[1..], words[1..], p, term, indexable);
    }
  }

  lemma {:induction false} CountNone(terms: string -> seq<string>, texts: seq<string>, term: string)
    requires forall k | 0 <= k < |texts| :: multiset(terms(texts[k]))[term] == 0
    ensures BagOf(terms, texts)[term] == 0
  {
    if texts != [] {
      CountNone(terms, texts[1..], term);
    }
  }

  lemma TagCounts(lex: Lexicon, tags: seq<string>, words: seq<seq<string>>, w: string)
    requires AllWordsOf(lex, tags, words)
    ensures BagOf(TagTerms(lex), tags)["w:" + w] == if Indexable(lex, w) then Occurrences(words, w) else 0
    ensures BagOf(TagTerms(lex), tags)["t:" + w] == if w != "" && ByteLen(w) <= 128 then Phrases(words, w) else 0
  {
    forall k | 0 <= k < |tags|
      ensures multiset(TagTerms(lex)(tags[k]))["w:" + w] == if Indexable(lex, w) then multiset(words[k])[w] else 0
      ensures multiset(TagTerms(lex)(tags[k]))["t:" + w]
        == if (w != "" && ByteLen(w) <= 128) && Join(" ", words[k]) == w then 1 else 0
    {
      TagTermCount(lex, tags[k], words[k], w);
    }
    CountWords(TagTerms(lex), tags, words, w, "w:" + w, Indexable(lex, w));
    CountPhrases(TagTerms(lex), tags, words, w, "t:" + w, w != "" && ByteLen(w) <= 128);
  }

  lemma CommentCounts(lex: Lexicon, comments: seq<string>, words: seq<seq<string>>, w: string)
    requires AllWordsOf(lex, comments, words)
    ensures BagOf(CommentTerms(lex), comments)["w:" + w] == if Indexable(lex, w) then Occurrences(words, w) else 0
    ensures BagOf(CommentTerms(lex), comments)["t:" + w] == 0
  {
    forall k | 0 <= k < |comments|
      ensures multiset(CommentTerms(lex)(comments[k]))["w:" + w]
        == if Indexable(lex, w) then multiset(words[k])[w] else 0
      ensures multiset(CommentTerms(lex)(comments[k]))["t:" + w] == 0
    {
      WordsAreWords(lex, comments[k], words[k]);
      WordTermCount(lex, words[k], w);
    }
    CountWords(CommentTerms(lex), comments, words, w, "w:" + w, Indexable(lex, w));
    CountNone(CommentTerms(lex), comments, "t:" + w);
  }

  lemma WeightedCount(tagWeight: real, tagged: multiset<string>, said: multiset<string>, term: string,
                      indexable: bool, a: nat, b: nat)
    requires tagged[term] == (if indexable then a else 0) && said[term] == if indexable then b else 0
    ensures Value(Frequencies(tagWeight, tagged, said), term)
      == if indexable then Times(tagWeight, a as real) + b as real else 0.0
  {
    FrequencyValue(tagWeight, tagged, said, term);
    assert Times(tagWeight, 0.0) == 0.0;
  }

  /** The raw frequencies: a word counts once for each of its occurrences, with the tag weight in tags. */
  lemma WordFrequency(lex: Lexicon, tagWeight: real, source: Source, tagWords: seq<seq<string>>,
                      commentWords: seq<seq<string>>, w: string)
    requires AllWordsOf(lex, source.tags, tagWords) && AllWordsOf(lex, source.comments, commentWords)
    ensures Value(SourceFrequencies(lex, tagWeight, source), "w:" + w)
      == if |w| >= 2 && ByteLen(w) <= 128 && w !in lex.stopWords
         then Times(tagWeight, Occurrences(tagWords, w) as real) + Occurrences(commentWords, w) as real
         else 0.0
  {
    var tagged, said := BagOf(TagTerms(lex), source.tags), BagOf(CommentTerms(lex), source.comments);
    var term, indexable := "w:" + w, Indexable(lex, w);
    assert tagged[term] == if indexable then Occurrences(tagWords, w) else 0 by {
      TagCounts(lex, source.tags, tagWords, w);
    }
    assert said[term] == if indexable then Occurrences(commentWords, w) else 0 by {
      CommentCounts(lex, source.comments, commentWords, w);
    }
    WeightedCount(tagWeight, tagged, said, term, indexable, Occurrences(tagWords, w), Occurrences(commentWords, w));
  }

  /** A phrase counts the tags that consist of it. */
  lemma PhraseFrequency(lex: Lexicon, tagWeight: real, source: Source, tagWords: seq<seq<string>>,
                        commentWords: seq<seq<string>>, p: string)
    requires AllWordsOf(lex, source.tags, tagWords) && AllWordsOf(lex, source.comments, commentWords)
    ensures Value(SourceFrequencies(lex, tagWeight, source), "t:" + p)
      == if p != "" && ByteLen(p) <= 128 then Times(tagWeight, Phrases(tagWords, p) as real) else 0.0
  {
    var tagged, said := BagOf(TagTerms(lex), source.tags), BagOf(CommentTerms(lex), source.comments);
    var term, indexable := "t:" + p, p != "" && ByteLen(p) <= 128;
    assert tagged[term] == if indexable then Phrases(tagWords, p) else 0 by {
      TagCounts(lex, source.tags, tagWords, p);
    }
    assert said[term] == if indexable then 0 else 0 by {
      CommentCounts(lex, source.comments, commentWords, p);
    }
    WeightedCount(tagWeight, tagged, said, term, indexable, Phrases(tagWords, p), 0);
  }

  // ----- Which terms a source has -----

  /** w is one of the words of a text: a maximal run of its lower-case form. */
  ghost predicate HasWord(lex: Lexicon, text: string, w: string) {
    exists s, i, j :: InLowerCase(lex, text, s) && MaximalRun(lex, s, i, j) && s[i..j] == w
  }

  ghost predicate HasWordTerm(lex: Lexicon, source: Source, w: string) {
    && |w| >= 2 && ByteLen(w) <= 128 && w !in lex.stopWords
    && exists text :: (text in source.tags || text in source.comments) && HasWord(lex, text, w)
  }

  ghost predicate HasPhraseTerm(lex: Lexicon, source: Source, p: string) {
    && p != "" && ByteLen(p) <= 128
    && exists tag, words :: tag in source.tags && WordsOf(lex, tag, words) && p == Join(" ", words)
  }

  /** The terms of a source. */
  ghost predicate HasTerm(lex: Lexicon, source: Source, term: string) {
    && |term| >= 2 && term[1] == ':'
    && (term[0] == 'w' || term[0] == 't')
    && (term[0] == 'w' ==> HasWordTerm(lex, source, term[2..]))
    && (term[0] == 't' ==> HasPhraseTerm(lex, source, term[2..]))
  }

  lemma HasWordIffListed(lex: Lexicon, text: string, w: string)
    ensures HasWord(lex, text, w) <==> w in Words(lex, text)
  {
    var words := Words(lex, text);
    WordsAreWords(lex, text, words);
    var s: string, runs: seq<(int, int)> :|
      InLowerCase(lex, text, s) && AllRuns(lex, s, 0, runs) && Cuts(s, runs, words);
    if w in words {
      var r :| 0 <= r < |words| && words[r] == w;
      assert MaximalRun(lex, s, runs[r].0, runs[r].1);
    }
    if HasWord(lex, text, w) {
      var t: string, i: int, j: int :| InLowerCase(lex, text, t) && MaximalRun(lex, t, i, j) && t[i..j] == w;
      assert s == t && WordAt(lex, s, i) && Covered(runs, i);
      var r :| 0 <= r < |runs| && runs[r].0 <= i < runs[r].1;
      SameRun(lex, s, (i, j), runs[r], i);
      assert words[r] == w;
    }
  }

  lemma {:induction false} InWordTerms(lex: Lexicon, words: seq<string>, term: string)
    ensures term in WordTerms(lex, words)
      <==> |term| >= 2 && term == "w:" + term[2..] && term[2..] in words && Indexable(lex, term[2..])
  {
    if words != [] {
      InWordTerms(lex, words[1..], term);
      assert ("w:" + words[0])[2..] == words[0];
    }
  }

  lemma InPhraseTerms(words: seq<string>, term: string)
    ensures term in PhraseTerms(words)
      <==> |term| >= 2 && term == "t:" + term[2..] && term[2..] == Join(" ", words) != "" && ByteLen(term[2..]) <= 128
  {
    assert ("t:" + Join(" ", words))[2..] == Join(" ", words);
  }

  lemma {:induction false} InBag(terms: string -> seq<string>, texts: seq<string>, term: string)
    ensures term in BagOf(terms, texts) <==> exists text :: text in texts && term in terms(text)
  {
    if texts != [] {
      InBag(terms, texts[1..], term);
      assert forall text :: text in texts <==> text == texts[0] || text in texts[1..];
    }
  }

  lemma Spelled(kind: char, term: string)
    ensures |term| >= 2 && term == [kind, ':'] + term[2..] <==> |term| >= 2 && term[0] == kind && term[1] == ':'
  {
    if |term| >= 2 { assert term == [term[0], term[1]] + term[2..]; }
  }

  lemma TagHasTerm(lex: Lexicon, source: Source, tag: string, term: string)
    requires tag in source.tags && term in TagTerms(lex)(tag)
    ensures HasTerm(lex, source, term)
  {
    var words := Words(lex, tag);
    Spelled('w', term);
    Spelled('t', term);
    if term in WordTerms(lex, words) {
      InWordTerms(lex, words, term);
      HasWordIffListed(lex, tag, term[2..]);
    } else {
      InPhraseTerms(words, term);
      WordsAreWords(lex, tag, words);
    }
  }

  lemma CommentHasTerm(lex: Lexicon, source: Source, comment: string, term: string)
    requires comment in source.comments && term in CommentTerms(lex)(comment)
    ensures HasTerm(lex, source, term)
  {
    Spelled('w', term);
    InWordTerms(lex, Words(lex, comment), term);
    HasWordIffListed(lex, comment, term[2..]);
  }

  lemma WordTermCounted(lex: Lexicon, tagWeight: real, source: Source, term: string)
    requires HasTerm(lex, source, term) && term[0] == 'w'
    ensures term in SourceFrequencies(lex, tagWeight, source)
  {
    var text :| (text in source.tags || text in source.comments) && HasWord(lex, text, term[2..]);
    WordOfText(lex, text, term);
    InBag(TagTerms(lex), source.tags, term);
    InBag(CommentTerms(lex), source.comments, term);
  }

  lemma WordOfText(lex: Lexicon, text: string, term: string)
    requires |term| >= 2 && term[0] == 'w' && term[1] == ':' && HasWord(lex, text, term[2..])
    requires Indexable(lex, term[2..])
    ensures term in TagTerms(lex)(text) && term in CommentTerms(lex)(text)
  {
    HasWordIffListed(lex, text, term[2..]);
    Spelled('w', term);
    InWordTerms(lex, Words(lex, text), term);
  }

  lemma PhraseTermCounted(lex: Lexicon, tagWeight: real, source: Source, term: string)
    requires HasTerm(lex, source, term) && term[0] == 't'
    ensures term in SourceFrequencies(lex, tagWeight, source)
  {
    var tag, words :| tag in source.tags && WordsOf(lex, tag, words) && term[2..] == Join(" ", words);
    WordsAreWords(lex, tag, words);
    Spelled('t', term);
    InPhraseTerms(words, term);
    assert term in TagTerms(lex)(tag);
    InBag(TagTerms(lex), source.tags, term);
  }

  /** A term has a positive frequency exactly when the texts of the source have it. */
  lemma PositiveFrequency(lex: Lexicon, tagWeight: real, source: Source, term: string)
    requires tagWeight > 0.0
    ensures Value(SourceFrequencies(lex, tagWeight, source), term) > 0.0 <==> HasTerm(lex, source, term)
    ensures term in SourceFrequencies(lex, tagWeight, source) <==> HasTerm(lex, source, term)
  {
    var tagged, said := BagOf(TagTerms(lex), source.tags), BagOf(CommentTerms(lex), source.comments);
    FrequenciesPositive(tagWeight, tagged, said);
    if HasTerm(lex, source, term) {
      if term[0] == 'w' { WordTermCounted(lex, tagWeight, source, term); }
      else { PhraseTermCounted(lex, tagWeight, source, term); }
    }
    if term in tagged {
      var tag := BagSource(TagTerms(lex), source.tags, term);
      TagHasTerm(lex, source, tag, term);
    }
    if term in said {
      var comment := BagSource(CommentTerms(lex), source.comments, term);
      CommentHasTerm(lex, source, comment, term);
    }
  }

  /** A vector holds only terms of the source, and is empty exactly when the source has none. */
  lemma VectorTerms(lex: Lexicon, m: Calculus, tagWeight: real, source: Source)
    requires Lawful(m) && tagWeight > 0.0
    ensures forall term | term in VectorOf(lex, m, tagWeight, source) :: HasTerm(lex, source, term)
    ensures VectorOf(lex, m, tagWeight, source) == map[] <==> forall term :: !HasTerm(lex, source, term)
  {
    var f := SourceFrequencies(lex, tagWeight, source);
    FrequenciesPositive(tagWeight, BagOf(TagTerms(lex), source.tags), BagOf(CommentTerms(lex), source.comments));
    NormalizedGeometry(m, f);
    CountedTerms(lex, tagWeight, source);
    EmptyMap(f);
  }

  lemma CountedTerms(lex: Lexicon, tagWeight: real, source: Source)
    requires tagWeight > 0.0
    ensures forall term :: term in SourceFrequencies(lex, tagWeight, source) <==> HasTerm(lex, source, term)
  {
    forall term ensures term in SourceFrequencies(lex, tagWeight, source) <==> HasTerm(lex, source, term) {
      PositiveFrequency(lex, tagWeight, source, term);
    }
  }

  lemma EmptyMap(f: map<string, real>)
    ensures f == map[] <==> forall term :: term !in f
  {
    if f.Keys == {} { assert f == map[]; }
  }

  /** When a source has at most 128 terms, its vector holds them all. */
  lemma AllTermsKept(lex: Lexicon, m: Calculus, tagWeight: real, source: Source, all: set<string>, term: string)
    requires Lawful(m) && tagWeight > 0.0
    requires |all| <= 128 && forall t | HasTerm(lex, source, t) :: t in all
    ensures term in VectorOf(lex, m, tagWeight, source) <==> HasTerm(lex, source, term)
  {
    var f := SourceFrequencies(lex, tagWeight, source);
    FrequenciesPositive(tagWeight, BagOf(TagTerms(lex), source.tags), BagOf(CommentTerms(lex), source.comments));
    NormalizedGeometry(m, f);
    CountedTerms(lex, tagWeight, source);
    Ranking.SubsetSize(f.Keys, all);
    TopTermsShape(f);
    Ranking.SameSize(Ranking.Elements(TopTerms(f)), f.Keys);
  }

  lemma SaidTerms(lex: Lexicon, comments: seq<string>)
    ensures (forall term :: !HasTerm(lex, Source([], comments), term)) <==>
            forall comment, w | comment in comments && HasWord(lex, comment, w) ::
              |w| < 2 || ByteLen(w) > 128 || w in lex.stopWords
  {
    forall comment, w | comment in comments && HasWord(lex, comment, w) && Indexable(lex, w)
      ensures HasTerm(lex, Source([], comments), "w:" + w)
    {
      assert ("w:" + w)[2..] == w;
    }
  }

  /** A source without tags has an empty vector exactly when its comments say nothing but stop words and
      words of fewer than two code points or more than 128 bytes. */
  lemma NothingSaid(lex: Lexicon, m: Calculus, tagWeight: real, comments: seq<string>)
    requires Lawful(m) && tagWeight > 0.0
    ensures VectorOf(lex, m, tagWeight, Source([], comments)) == map[] <==>
            forall comment, w | comment in comments && HasWord(lex, comment, w) ::
              |w| < 2 || ByteLen(w) > 128 || w in lex.stopWords
  {
    VectorTerms(lex, m, tagWeight, Source([], comments));
    SaidTerms(lex, comments);
  }

  // ----- Sizes, order and weights -----

  /** The number of code points that n bytes of UTF-8 can tell apart. */
  function Capacity(n: nat): nat {
    if n <= 1 then 0x80 else if n == 2 then 0x800 else 32 * Capacity(n - 1)
  }

  /** A code point takes the fewest bytes that can encode it. */
  lemma ShortestEncoding(c: char, n: nat)
    requires 1 <= n <= 4
    ensures Utf8Len(c) <= n <==> (c as int) < Capacity(n)
  {
    assert Capacity(3) == 0x10000 && Capacity(4) == 0x200000;
  }

  lemma {:induction false} BytesAdd(s: string, t: string)
    ensures ByteLen(s + t) == ByteLen(s) + ByteLen(t)
  {
    if s == [] {
      assert s + t == t;
    } else {
      BytesAdd(s[1..], t);
      assert (s + t)[1..] == s[1..] + t;
    }
  }

  /** a and b agree up to k, where a ends or has the smaller code point. */
  ghost predicate SmallerAt(a: string, b: string, k: nat) {
    k <= |a| && k < |b| && a[..k] == b[..k] && (k == |a| || a[k] < b[k])
  }

  /** Ties are broken at the first code point that differs; a proper prefix comes first. */
  lemma {:induction false} TextLessAtFirstDifference(a: string, b: string)
    ensures TextLess(a, b) <==> exists k: nat :: SmallerAt(a, b, k)
  {
    if a != [] && b != [] && a[0] == b[0] {
      TextLessAtFirstDifference(a[1..], b[1..]);
      if k: nat :| SmallerAt(a, b, k) {
        assert a[1..][..k - 1] == a[..k][1..] == b[..k][1..] == b[1..][..k - 1];
        assert SmallerAt(a[1..], b[1..], k - 1);
      }
      if k: nat :| SmallerAt(a[1..], b[1..], k) {
        assert a[..k + 1] == [a[0]] + a[1..][..k] == b[..k + 1];
        assert SmallerAt(a, b, k + 1);
      }
    } else if b != [] {
      assert SmallerAt(a, b, 0) <==> TextLess(a, b);
    }
  }

  /** Weights stand to each other as the logarithms of the frequencies; with unit length this fixes them. */
  lemma WeightsAreLogarithmic(lex: Lexicon, m: Calculus, tagWeight: real, source: Source, t: string, u: string)
    requires Lawful(m) && tagWeight > 0.0
    requires t in VectorOf(lex, m, tagWeight, source) && u in VectorOf(lex, m, tagWeight, source)
    ensures var f, v := SourceFrequencies(lex, tagWeight, source), VectorOf(lex, m, tagWeight, source);
      Times(v[t], m.log1p(Value(f, u))) == Times(v[u], m.log1p(Value(f, t)))
  {
    var f := SourceFrequencies(lex, tagWeight, source);
    FrequenciesPositive(tagWeight, BagOf(TagTerms(lex), source.tags), BagOf(CommentTerms(lex), source.comments));
    NormalizedGeometry(m, f);
    var norm := SquaredLength(Logarithms(m, f), Ranking.Elements(TopTerms(f)));
    if norm != 0.0 && m.sqrt(norm) != 0.0 {
      CrossRatio(m.log1p(f[t]), m.log1p(f[u]), m.sqrt(norm));
    }
  }

  lemma CrossRatio(a: real, b: real, r: real)
    requires r != 0.0
    ensures Times(a / r, b) == Times(b / r, a)
  {
    assert (a / r) * b == (1.0 / r) * (a * b);
    assert (b / r) * a == (1.0 / r) * (a * b);
  }
}
