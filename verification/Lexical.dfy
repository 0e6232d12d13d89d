/** Sparse lexical vectors of an image's tags and comments.

    Weights are reals. The Unicode tables, the stop words and the two transcendental
    functions are parameters, so every statement holds for any choice of them. */
module Lexical {
  import opened Sums
  import Ranking
  import opened Basics

  const MAX_TERMS: nat := 128
  const MAX_WORD_BYTES: nat := 128

  /** What the encoder takes from its environment. `lower` and `isWordRune` act on single
      code points, as the Unicode tables do. */
  datatype Lexicon = Lexicon(lower: char -> char, isWordRune: char -> bool, stopWords: set<string>)

  datatype Calculus = Calculus(log1p: real -> real, sqrt: real -> real)

  ghost predicate Lawful(m: Calculus) {
    && m.log1p(0.0) == 0.0
    && (forall x: real, y: real {:trigger m.log1p(x), m.log1p(y)} :: 0.0 <= x < y ==> m.log1p(x) < m.log1p(y))
    && (forall x: real {:trigger m.sqrt(x)} :: 0.0 <= x ==> 0.0 <= m.sqrt(x) && Times(m.sqrt(x), m.sqrt(x)) == x)
  }

  datatype Source = Source(tags: seq<string>, comments: seq<string>)

  // ----- Words -----

  function Lower(lex: Lexicon, s: string): (r: string)
    ensures |r| == |s|
  {
    seq(|s|, i requires 0 <= i < |s| => lex.lower(s[i]))
  }

  /** Length of the leading run of word code points. */
  function RunLength(lex: Lexicon, s: string): (n: nat)
    ensures n <= |s|
    ensures forall i | 0 <= i < n :: lex.isWordRune(s[i])
    ensures n < |s| ==> !lex.isWordRune(s[n])
  {
    if s == [] || !lex.isWordRune(s[0]) then 0 else 1 + RunLength(lex, s[1..])
  }

  /** The maximal runs of word code points, in order. */
  function Fields(lex: Lexicon, s: string): seq<string>
    decreases |s|
  {
    if s == [] then []
    else if !lex.isWordRune(s[0]) then Fields(lex, s[1..])
    else
      var n := RunLength(lex, s);
      [s[..n]] + Fields(lex, s[n..])
  }

  function Words(lex: Lexicon, text: string): seq<string> {
    Fields(lex, Lower(lex, text))
  }

  predicate Kept(lex: Lexicon, word: string) {
    |word| >= 2 && ByteLen(word) <= MAX_WORD_BYTES && word !in lex.stopWords
  }

  function WordTerm(lex: Lexicon, word: string): seq<string> {
    if Kept(lex, word) then ["w:" + word] else []
  }

  function WordTerms(lex: Lexicon, words: seq<string>): seq<string> {
    if words == [] then [] else WordTerm(lex, words[0]) + WordTerms(lex, words[1..])
  }

  function PhraseTerms(words: seq<string>): seq<string> {
    var phrase := Join(" ", words);
    if phrase != "" && ByteLen(phrase) <= MAX_WORD_BYTES then ["t:" + phrase] else []
  }

  /** A tag contributes its words and its whole phrase. */
  function TagTerms(lex: Lexicon): string -> seq<string> {
    tag => WordTerms(lex, Words(lex, tag)) + PhraseTerms(Words(lex, tag))
  }

  function CommentTerms(lex: Lexicon): string -> seq<string> {
    comment => WordTerms(lex, Words(lex, comment))
  }

  // ----- Frequencies, as a closed form over bags of terms -----

  function BagOf<T>(terms: T -> seq<string>, texts: seq<T>): multiset<string> {
    if texts == [] then multiset{} else multiset(terms(texts[0])) + BagOf(terms, texts[1..])
  }

  function Frequency(tagWeight: real, tagged: multiset<string>, said: multiset<string>, term: string): real {
    Times(tagWeight, tagged[term] as real) + (said[term] as real)
  }

  function Frequencies(tagWeight: real, tagged: multiset<string>, said: multiset<string>): map<string, real> {
    map term | term in tagged + said :: Frequency(tagWeight, tagged, said, term)
  }

  function SourceFrequencies(lex: Lexicon, tagWeight: real, source: Source): map<string, real> {
    Frequencies(tagWeight, BagOf(TagTerms(lex), source.tags), BagOf(CommentTerms(lex), source.comments))
  }

  // ----- The order on terms -----

  predicate TextLess(a: string, b: string) {
    if b == [] then false
    else if a == [] then true
    else a[0] < b[0] || (a[0] == b[0] && TextLess(a[1..], b[1..]))
  }

  lemma TextLessTotal(a: string, b: string)
    ensures !TextLess(a, a)
    ensures a != b ==> TextLess(a, b) || TextLess(b, a)
  {
    if a != [] && b != [] && a[0] == b[0] {
      TextLessTotal(a[1..], b[1..]);
      if a[1..] == b[1..] { assert a == [a[0]] + a[1..] == b; }
    }
  }

  lemma TextLessTransitive(a: string, b: string, c: string)
    requires TextLess(a, b) && TextLess(b, c)
    ensures TextLess(a, c)
  {
    if a != [] && a[0] == b[0] == c[0] {
      TextLessTransitive(a[1..], b[1..], c[1..]);
    }
  }

  function Value(weights: map<string, real>, term: string): real {
    if term in weights then weights[term] else 0.0
  }

  /** Larger weight first, ties by ascending text. */
  predicate Before(weights: map<string, real>, a: string, b: string) {
    Value(weights, a) > Value(weights, b) || (Value(weights, a) == Value(weights, b) && TextLess(a, b))
  }

  function TermOrder(weights: map<string, real>): (string, string) -> bool {
    (a, b) => Before(weights, a, b)
  }

  lemma TermOrderTotal(weights: map<string, real>)
    ensures Ranking.StrictTotal(TermOrder(weights))
  {
    var less := TermOrder(weights);
    forall x, y ensures !less(x, x) && (x != y ==> less(x, y) || less(y, x)) {
      TextLessTotal(x, y);
    }
    forall x, y, z | less(x, y) && less(y, z) ensures less(x, z) {
      if TextLess(x, y) && TextLess(y, z) { TextLessTransitive(x, y, z); }
    }
  }

  // ----- The vector -----

  function Logarithms(m: Calculus, frequencies: map<string, real>): map<string, real> {
    map term | term in frequencies :: m.log1p(frequencies[term])
  }

  /** The terms that survive truncation, best first. */
  ghost function TopTerms(frequencies: map<string, real>): seq<string> {
    TermOrderTotal(frequencies);
    Ranking.Take(MAX_TERMS, Ranking.Ranked(TermOrder(frequencies), frequencies.Keys))
  }

  function SquareOf(weights: map<string, real>): string -> real {
    term => Times(Value(weights, term), Value(weights, term))
  }

  ghost function SquaredNorm(v: map<string, real>): real {
    Sum(v.Keys, SquareOf(v))
  }

  ghost function SquaredLength(logs: map<string, real>, top: set<string>): (n: real)
    ensures n >= 0.0
  {
    forall term ensures SquareOf(logs)(term) >= 0.0 {
      SquareNonNegative(Value(logs, term));
    }
    SumNonNegative(top, SquareOf(logs));
    Sum(top, SquareOf(logs))
  }

  lemma SquareNonNegative(x: real)
    ensures Times(x, x) >= 0.0
  {
  }

  lemma RootPositive(m: Calculus, n: real)
    requires Lawful(m) && n > 0.0
    ensures m.sqrt(n) > 0.0
  {
    assert Times(m.sqrt(n), m.sqrt(n)) == n;
  }

  /** The vector of a frequency table: log-damped, truncated to the best terms, scaled to unit length. */
  ghost function Normalized(m: Calculus, frequencies: map<string, real>): map<string, real>
    requires Lawful(m)
  {
    var logs := Logarithms(m, frequencies);
    var top := Ranking.Elements(TopTerms(frequencies));
    var norm := SquaredLength(logs, top);
    if norm == 0.0 then map[]
    else
      RootPositive(m, norm);
      map term | term in top :: Value(logs, term) / m.sqrt(norm)
  }

  ghost function VectorOf(lex: Lexicon, m: Calculus, tagWeight: real, source: Source): map<string, real>
    requires Lawful(m)
  {
    Normalized(m, SourceFrequencies(lex, tagWeight, source))
  }

  // ----- The vector depends only on the bags of tags and comments -----

  lemma {:induction false} BagSplit<T>(terms: T -> seq<string>, b: seq<T>, k: nat)
    requires k < |b|
    ensures BagOf(terms, b) == multiset(terms(b[k])) + BagOf(terms, b[..k] + b[k + 1..])
  {
    var rest := b[..k] + b[k + 1..];
    if k == 0 {
      assert rest == b[1..];
    } else {
      BagSplit(terms, b[1..], k - 1);
      assert rest[1..] == b[1..][..k - 1] + b[1..][k..];
    }
  }

  lemma {:induction false} BagOrderFree<T>(terms: T -> seq<string>, a: seq<T>, b: seq<T>)
    requires multiset(a) == multiset(b)
    ensures BagOf(terms, a) == BagOf(terms, b)
  {
    if a == [] {
      assert |multiset(a)| == 0;
    } else {
      assert a[0] in multiset(a);
      var k :| 0 <= k < |b| && b[k] == a[0];
      var rest := b[..k] + b[k + 1..];
      assert a == [a[0]] + a[1..];
      assert b == b[..k] + [b[k]] + b[k + 1..];
      assert multiset(rest) == multiset(b) - multiset{b[k]};
      BagOrderFree(terms, a[1..], rest);
      BagSplit(terms, b, k);
    }
  }

  /** Reordering tags or comments never changes the vector. */
  lemma VectorOrderFree(lex: Lexicon, m: Calculus, tagWeight: real, a: Source, b: Source)
    requires Lawful(m)
    requires multiset(a.tags) == multiset(b.tags) && multiset(a.comments) == multiset(b.comments)
    ensures VectorOf(lex, m, tagWeight, a) == VectorOf(lex, m, tagWeight, b)
  {
    BagOrderFree(TagTerms(lex), a.tags, b.tags);
    BagOrderFree(CommentTerms(lex), a.comments, b.comments);
  }

  // ----- Bounds and geometry -----

  lemma {:induction false} WordTermsBounded(lex: Lexicon, words: seq<string>, term: string)
    requires term in WordTerms(lex, words)
    ensures ByteLen(term) <= MAX_WORD_BYTES + 2
  {
    if !(Kept(lex, words[0]) && term == "w:" + words[0]) {
      WordTermsBounded(lex, words[1..], term);
    } else {
      PrefixedLength('w', words[0]);
    }
  }

  lemma PrefixedLength(kind: char, text: string)
    requires kind as int < 0x80
    ensures ByteLen([kind, ':'] + text) == ByteLen(text) + 2
  {
    assert ([kind, ':'] + text)[1..] == [':'] + text;
    assert ([':'] + text)[1..] == text;
  }

  lemma TermBounded(lex: Lexicon, text: string, term: string)
    requires term in TagTerms(lex)(text) || term in CommentTerms(lex)(text)
    ensures ByteLen(term) <= MAX_WORD_BYTES + 2
  {
    var words := Words(lex, text);
    if term in WordTerms(lex, words) {
      WordTermsBounded(lex, words, term);
    } else {
      assert term in PhraseTerms(words);
      PrefixedLength('t', Join(" ", words));
    }
  }

  /** A term of a bag comes from one of its texts. */
  lemma {:induction false} BagSource(terms: string -> seq<string>, texts: seq<string>, term: string)
    returns (text: string)
    requires term in BagOf(terms, texts)
    ensures text in texts && term in terms(text)
  {
    if term in terms(texts[0]) {
      text := texts[0];
    } else {
      text := BagSource(terms, texts[1..], term);
    }
  }

  lemma ProductPositive(x: real, y: real)
    requires x > 0.0 && y > 0.0
    ensures Times(x, y) > 0.0
  {
  }

  lemma ProductMonotone(x: real, a: real, b: real)
    requires x > 0.0 && a <= b
    ensures x * a <= x * b
  {
  }

  lemma FrequenciesPositive(tagWeight: real, tagged: multiset<string>, said: multiset<string>)
    requires tagWeight > 0.0
    ensures forall t | t in Frequencies(tagWeight, tagged, said) :: Frequencies(tagWeight, tagged, said)[t] > 0.0
  {
    forall t | t in tagged + said ensures Frequency(tagWeight, tagged, said, t) > 0.0 {
      if tagged[t] > 0 { ProductPositive(tagWeight, tagged[t] as real); } else { assert said[t] > 0; }
    }
  }

  lemma FrequencyValue(tagWeight: real, tagged: multiset<string>, said: multiset<string>, t: string)
    ensures Value(Frequencies(tagWeight, tagged, said), t) == Frequency(tagWeight, tagged, said, t)
  {
    if t !in tagged && t !in said { assert Times(tagWeight, 0.0) == 0.0; }
  }

  lemma LogarithmsPositive(m: Calculus, frequencies: map<string, real>)
    requires Lawful(m) && forall t | t in frequencies :: frequencies[t] > 0.0
    ensures forall t | t in frequencies :: Value(Logarithms(m, frequencies), t) > 0.0
  {
    forall t | t in frequencies ensures m.log1p(frequencies[t]) > 0.0 {
      assert m.log1p(0.0) < m.log1p(frequencies[t]);
    }
  }

  lemma TopTermsShape(frequencies: map<string, real>)
    ensures Ranking.Elements(TopTerms(frequencies)) <= frequencies.Keys
    ensures |Ranking.Elements(TopTerms(frequencies))| == |TopTerms(frequencies)| == Basics.Min(MAX_TERMS, |frequencies|)
  {
    TermOrderTotal(frequencies);
    var all := Ranking.Ranked(TermOrder(frequencies), frequencies.Keys);
    Ranking.SortedDistinct(TermOrder(frequencies), all);
    Ranking.DistinctSize(all);
    Ranking.DistinctSize(TopTerms(frequencies));
    forall t | t in TopTerms(frequencies) ensures t in frequencies.Keys {
      assert t in Ranking.Elements(all);
    }
  }

  lemma QuotientSquared(l: real, r: real, n: real)
    requires r > 0.0 && n > 0.0 && Times(r, r) == n
    ensures Times(l / r, l / r) == Times(1.0 / n, Times(l, l))
  {
    var q := l / r;
    assert q * r == l;
    assert (q * r) * (q * r) == (q * q) * (r * r);
    DivideOut(q * q, l * l, n);
  }

  lemma DivideOut(a: real, b: real, n: real)
    requires n > 0.0 && a * n == b
    ensures a == Times(1.0 / n, b)
  {
    assert (1.0 / n) * (a * n) == a * ((1.0 / n) * n);
  }

  lemma RootBounds(l: real, r: real, n: real)
    requires l > 0.0 && r > 0.0 && Times(l, l) <= n == Times(r, r)
    ensures 0.0 < l / r <= 1.0
  {
    if l > r {
      ProductMonotone(l, r, l);
      ProductMonotone(r, r, l);
      ProductPositive(r, l - r);
      ProductPositive(l, l - r);
    }
  }

  /** A vector is empty or of unit length, with at most MAX_TERMS weights in (0, 1]. */
  lemma NormalizedGeometry(m: Calculus, frequencies: map<string, real>)
    requires Lawful(m) && forall t | t in frequencies :: frequencies[t] > 0.0
    ensures var v := Normalized(m, frequencies);
      && v.Keys == Ranking.Elements(TopTerms(frequencies)) <= frequencies.Keys
      && |v| <= MAX_TERMS
      && (v == map[] <==> frequencies == map[])
      && (v == map[] || SquaredNorm(v) == 1.0)
      && (forall t | t in v :: 0.0 < v[t] <= 1.0)
  {
    var logs, top, v := Logarithms(m, frequencies), Ranking.Elements(TopTerms(frequencies)), Normalized(m, frequencies);
    LogarithmsPositive(m, frequencies);
    TopTermsShape(frequencies);
    if frequencies == map[] {
      assert |top| == 0;
      assert v == map[];
    } else {
      assert |frequencies| > 0;
      assert top != {};
      var norm := SquaredLength(logs, top);
      NormPositive(logs, top);
      RootPositive(m, norm);
      assert v == map t | t in top :: Value(logs, t) / m.sqrt(norm);
      Scaled(m, logs, top, norm, v);
    }
  }

  lemma NormPositive(logs: map<string, real>, top: set<string>)
    requires top != {} && forall t | t in top :: Value(logs, t) > 0.0
    ensures SquaredLength(logs, top) > 0.0
  {
    forall t | t in top ensures SquareOf(logs)(t) > 0.0 { ProductPositive(Value(logs, t), Value(logs, t)); }
    SumPositive(top, SquareOf(logs));
  }

  lemma Scaled(m: Calculus, logs: map<string, real>, top: set<string>, norm: real, v: map<string, real>)
    requires Lawful(m) && norm > 0.0 && m.sqrt(norm) > 0.0
    requires norm == Sum(top, SquareOf(logs)) && forall t | t in top :: Value(logs, t) > 0.0
    requires v.Keys == top && forall t | t in top :: v[t] == Value(logs, t) / m.sqrt(norm)
    ensures SquaredNorm(v) == 1.0
    ensures forall t | t in v :: 0.0 < v[t] <= 1.0
  {
    ScaledSquares(m, logs, top, norm, v);
    SumScale(top, SquareOf(logs), SquareOf(v), 1.0 / norm);
    DivideOut(1.0, norm, norm);
    forall t | t in v ensures 0.0 < v[t] <= 1.0 {
      BelowNorm(logs, top, t);
      RootBounds(Value(logs, t), m.sqrt(norm), norm);
    }
  }

  lemma ScaledSquares(m: Calculus, logs: map<string, real>, top: set<string>, norm: real, v: map<string, real>)
    requires Lawful(m) && norm > 0.0 && m.sqrt(norm) > 0.0
    requires v.Keys == top && forall t | t in top :: v[t] == Value(logs, t) / m.sqrt(norm)
    ensures forall t | t in top :: SquareOf(v)(t) == Times(1.0 / norm, SquareOf(logs)(t))
  {
    forall t | t in top ensures SquareOf(v)(t) == Times(1.0 / norm, SquareOf(logs)(t)) {
      QuotientSquared(Value(logs, t), m.sqrt(norm), norm);
    }
  }

  lemma BelowNorm(logs: map<string, real>, top: set<string>, t: string)
    requires t in top
    ensures SquareOf(logs)(t) <= Sum(top, SquareOf(logs))
  {
    SumPick(top, SquareOf(logs), t);
    assert Sum(top - {t}, SquareOf(logs)) == SquaredLength(logs, top - {t});
  }

  /** The table constraints of the stored vector hold for every source and positive tag weight. */
  lemma VectorGeometry(lex: Lexicon, m: Calculus, tagWeight: real, source: Source)
    requires Lawful(m) && tagWeight > 0.0
    ensures var v := VectorOf(lex, m, tagWeight, source);
      && |v| <= 128
      && (v == map[] || SquaredNorm(v) == 1.0)
      && (forall t | t in v :: 0.0 < v[t] <= 1.0 && ByteLen(t) <= 130)
  {
    var tagged, said := BagOf(TagTerms(lex), source.tags), BagOf(CommentTerms(lex), source.comments);
    FrequenciesPositive(tagWeight, tagged, said);
    NormalizedGeometry(m, Frequencies(tagWeight, tagged, said));
    forall t | t in VectorOf(lex, m, tagWeight, source) ensures ByteLen(t) <= 130 {
      assert t in tagged + said;
      if t in tagged {
        var tag := BagSource(TagTerms(lex), source.tags, t);
        TermBounded(lex, tag, t);
      } else {
        var comment := BagSource(CommentTerms(lex), source.comments, t);
        TermBounded(lex, comment, t);
      }
    }
  }

  /** Exactly the first 128 terms by (raw frequency descending, term ascending) are kept. */
  lemma KeptTermsAreBest(lex: Lexicon, m: Calculus, tagWeight: real, source: Source, term: string)
    requires Lawful(m) && tagWeight > 0.0
    requires term in SourceFrequencies(lex, tagWeight, source)
    ensures var f := SourceFrequencies(lex, tagWeight, source);
      term in VectorOf(lex, m, tagWeight, source) <==>
      |set u | u in f.Keys && (f[u] > f[term] || (f[u] == f[term] && TextLess(u, term)))| < 128
  {
    var f := SourceFrequencies(lex, tagWeight, source);
    FrequenciesPositive(tagWeight, BagOf(TagTerms(lex), source.tags), BagOf(CommentTerms(lex), source.comments));
    BestKept(m, f, term);
  }

  lemma BestKept(m: Calculus, f: map<string, real>, term: string)
    requires Lawful(m) && term in f && forall t | t in f :: f[t] > 0.0
    ensures term in Normalized(m, f) <==>
      |set u | u in f.Keys && (f[u] > f[term] || (f[u] == f[term] && TextLess(u, term)))| < MAX_TERMS
  {
    NormalizedGeometry(m, f);
    TopTermRank(f, term);
  }

  lemma TopTermRank(f: map<string, real>, term: string)
    requires term in f
    ensures term in TopTerms(f) <==>
      |set u | u in f.Keys && (f[u] > f[term] || (f[u] == f[term] && TextLess(u, term)))| < MAX_TERMS
  {
    TopTermPosition(f, term);
    Preceding(f, term);
  }

  lemma TopTermPosition(f: map<string, real>, term: string)
    requires term in f
    ensures term in TopTerms(f) <==> |Ranking.Ahead(TermOrder(f), f.Keys, term)| < MAX_TERMS
  {
    TermOrderTotal(f);
    Ranking.TakeIsRank(TermOrder(f), Ranking.Ranked(TermOrder(f), f.Keys), f.Keys, MAX_TERMS, term);
  }

  lemma Preceding(f: map<string, real>, term: string)
    requires term in f
    ensures (set u | u in f.Keys && (f[u] > f[term] || (f[u] == f[term] && TextLess(u, term))))
        == Ranking.Ahead(TermOrder(f), f.Keys, term)
  {
  }

  /** Whether anything is indexable does not depend on the tag weight. */
  lemma EmptinessIgnoresWeight(lex: Lexicon, m: Calculus, w1: real, w2: real, source: Source)
    requires Lawful(m) && w1 > 0.0 && w2 > 0.0
    ensures VectorOf(lex, m, w1, source) == map[] <==> VectorOf(lex, m, w2, source) == map[]
  {
    var tagged, said := BagOf(TagTerms(lex), source.tags), BagOf(CommentTerms(lex), source.comments);
    FrequenciesPositive(w1, tagged, said);
    FrequenciesPositive(w2, tagged, said);
    NormalizedGeometry(m, Frequencies(w1, tagged, said));
    NormalizedGeometry(m, Frequencies(w2, tagged, said));
    assert Frequencies(w1, tagged, said).Keys == Frequencies(w2, tagged, said).Keys;
    if Frequencies(w1, tagged, said) == map[] {
      assert Frequencies(w2, tagged, said).Keys == {};
    } else {
      assert Frequencies(w1, tagged, said).Keys != {};
    }
  }

  // ----- Similarity -----

  function ProductOf(u: map<string, real>, v: map<string, real>): string -> real {
    term => Times(Value(u, term), Value(v, term))
  }

  ghost function Dot(u: map<string, real>, v: map<string, real>): real {
    Sum(u.Keys, ProductOf(u, v))
  }

  lemma TwiceProduct(a: real, b: real)
    ensures 2.0 * Times(a, b) <= Times(a, a) + Times(b, b)
  {
    assert (a - b) * (a - b) >= 0.0;
  }

  /** Cauchy-Schwarz for stored vectors: no similarity exceeds 1, and a non-empty vector
      scores exactly 1 against itself. */
  lemma SimilarityAtMostOne(u: map<string, real>, v: map<string, real>)
    requires u == map[] || SquaredNorm(u) == 1.0
    requires v == map[] || SquaredNorm(v) == 1.0
    ensures Dot(u, v) <= 1.0
    ensures u != map[] ==> Dot(u, u) == 1.0
  {
    SumEqual(u.Keys, ProductOf(u, u), SquareOf(u));
    var shared := u.Keys * v.Keys;
    DropUnshared(u, v);
    ProductBelowSquares(u, v);
    SumAddLe(shared, ProductOf(u, v), SquareOf(u), SquareOf(v));
    SumMonotone(shared, u.Keys, SquareOf(u));
    SumMonotone(shared, v.Keys, SquareOf(v));
  }

  lemma ProductBelowSquares(u: map<string, real>, v: map<string, real>)
    ensures forall t :: 2.0 * ProductOf(u, v)(t) <= SquareOf(u)(t) + SquareOf(v)(t)
    ensures forall t :: SquareOf(u)(t) >= 0.0 && SquareOf(v)(t) >= 0.0
  {
    forall t ensures 2.0 * ProductOf(u, v)(t) <= SquareOf(u)(t) + SquareOf(v)(t) {
      TwiceProduct(Value(u, t), Value(v, t));
    }
    forall t ensures SquareOf(u)(t) >= 0.0 && SquareOf(v)(t) >= 0.0 {
      SquareNonNegative(Value(u, t));
      SquareNonNegative(Value(v, t));
    }
  }

  /** Joining on the term column computes the full dot product. */
  lemma DropUnshared(u: map<string, real>, v: map<string, real>)
    ensures Dot(u, v) == Sum(u.Keys * v.Keys, ProductOf(u, v))
  {
    SumSupport(u.Keys, u.Keys * v.Keys, ProductOf(u, v));
  }

  function DistanceOf(u: map<string, real>, v: map<string, real>): string -> real {
    term => Times(Value(u, term) - Value(v, term), Value(u, term) - Value(v, term))
  }

  /** The squared distance of two vectors over all their terms. */
  ghost function SquaredDistance(u: map<string, real>, v: map<string, real>): real {
    Sum(u.Keys + v.Keys, DistanceOf(u, v))
  }

  lemma SumsPolarize(s: set<string>, x: string, d: string -> real, u: string -> real, v: string -> real,
                     p: string -> real)
    requires x in s && d(x) == u(x) + v(x) - 2.0 * p(x)
    requires Sum(s - {x}, d) == Sum(s - {x}, u) + Sum(s - {x}, v) - 2.0 * Sum(s - {x}, p)
    ensures Sum(s, d) == Sum(s, u) + Sum(s, v) - 2.0 * Sum(s, p)
  {
    SumPick(s, d, x);
    SumPick(s, u, x);
    SumPick(s, v, x);
    SumPick(s, p, x);
  }

  lemma {:induction false} SumPolarize(s: set<string>, u: map<string, real>, v: map<string, real>)
    ensures Sum(s, DistanceOf(u, v)) == Sum(s, SquareOf(u)) + Sum(s, SquareOf(v)) - 2.0 * Sum(s, ProductOf(u, v))
  {
    if s != {} {
      var x :| x in s;
      SumPolarize(s - {x}, u, v);
      Polarize(Value(u, x), Value(v, x));
      SumsPolarize(s, x, DistanceOf(u, v), SquareOf(u), SquareOf(v), ProductOf(u, v));
    }
  }

  lemma Polarize(a: real, b: real)
    ensures Times(a - b, a - b) == Times(a, a) + Times(b, b) - 2.0 * Times(a, b)
  {
  }

  /** Similarity is closeness: between vectors of unit length it is one less half their squared distance. */
  lemma SimilarityIsCloseness(u: map<string, real>, v: map<string, real>)
    requires SquaredNorm(u) == 1.0 && SquaredNorm(v) == 1.0
    ensures 2.0 * Dot(u, v) == 2.0 - SquaredDistance(u, v)
    ensures Dot(u, v) == Dot(v, u)
  {
    var all := u.Keys + v.Keys;
    SumPolarize(all, u, v);
    SumSupport(all, u.Keys, SquareOf(u));
    SumSupport(all, v.Keys, SquareOf(v));
    SumSupport(all, u.Keys, ProductOf(u, v));
    SumSupport(all, v.Keys, ProductOf(v, u));
    SumEqual(all, ProductOf(u, v), ProductOf(v, u));
  }
}
