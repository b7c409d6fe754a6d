/** What the compiled search queries mean, as sets of documents. */
module SearchMeaning {
  import opened JsText
  import opened SearchCompiler

  /** A document: an analysed word sequence for each text field, and its keyword values. */
  datatype Doc = Doc(id: string, text: map<string, seq<Word>>, keywords: map<string, set<string>>)

  /** What the search engine supplies: an edit distance and the n-grams of a word. */
  datatype Engine = Engine(distance: (Word, Word) -> nat, grams: Word -> set<string>)

  function Tokens(d: Doc, field: string): seq<Word> {
    if field in d.text then d.text[field] else []
  }

  predicate SharePrefix(w: Word, t: Word, n: nat) {
    var k := Min(n, |w|);
    k <= |t| && w[..k] == t[..k]
  }

  predicate TermMatches(e: Engine, w: Word, t: Word, fuzziness: nat, prefix: nat) {
    w == t || (fuzziness > 0 && SharePrefix(w, t, prefix) && e.distance(w, t) <= fuzziness)
  }

  predicate WordIn(e: Engine, w: Word, tokens: seq<Word>, fuzziness: nat, prefix: nat) {
    exists t :: t in tokens && TermMatches(e, w, t, fuzziness, prefix)
  }

  predicate PhraseAt(tokens: seq<Word>, words: seq<Word>, i: nat) {
    i + |words| <= |tokens| && tokens[i..i + |words|] == words
  }

  predicate ContainsPhrase(tokens: seq<Word>, words: seq<Word>) {
    exists i | 0 <= i <= |tokens| :: PhraseAt(tokens, words, i)
  }

  predicate Accepts(e: Engine, d: Doc, c: Clause) {
    var tokens := Tokens(d, c.field);
    match c
    case Match(_, text, all, fuzziness, prefix) =>
      if all then forall w :: w in text ==> WordIn(e, w, tokens, fuzziness, prefix)
      else exists w :: w in text && WordIn(e, w, tokens, fuzziness, prefix)
    case MatchNgram(_, text) => exists w, t :: w in text && t in tokens && e.grams(w) * e.grams(t) != {}
    case MatchPhrase(_, text) => ContainsPhrase(tokens, text)
  }

  function Count(e: Engine, d: Doc, clauses: seq<Clause>): nat {
    if clauses == [] then 0
    else Count(e, d, clauses[..|clauses| - 1]) + if Accepts(e, d, clauses[|clauses| - 1]) then 1 else 0
  }

  /** A bool query without clauses matches everything. */
  predicate Selects(e: Engine, d: Doc, m: Must) {
    match m
    case Should(should, minimum, _) => should == [] || Count(e, d, should) >= minimum
    case MatchAll => true
    case ExcludeIds(ids) => d.id !in ids
    case Terms(field, values) => field in d.keywords && exists v :: v in values && v in d.keywords[field]
    case Term(field, value) => field in d.keywords && value in d.keywords[field]
  }

  predicate Found(e: Engine, d: Doc, musts: seq<Must>) {
    forall m :: m in musts ==> Selects(e, d, m)
  }

  predicate FoundByText(e: Engine, d: Doc, fields: seq<string>, words: seq<Word>, mode: Mode, mt: MatchType,
                        tol: Tolerance)
    requires words != []
  {
    Selects(e, d, TextQuery(fields, words, mode, mt, tol))
  }

  // ---------------------------------------------------------------- counting clauses

  lemma {:induction false} CountConcat(e: Engine, d: Doc, a: seq<Clause>, b: seq<Clause>)
    ensures Count(e, d, a + b) == Count(e, d, a) + Count(e, d, b)
  {
    if b == [] {
      assert a + b == a;
    } else {
      assert (a + b)[..|a + b| - 1] == a + b[..|b| - 1];
      CountConcat(e, d, a, b[..|b| - 1]);
    }
  }

  lemma {:induction false} CountPositiveIff(e: Engine, d: Doc, clauses: seq<Clause>)
    ensures Count(e, d, clauses) >= 1 <==> exists k :: 0 <= k < |clauses| && Accepts(e, d, clauses[k])
    ensures Count(e, d, clauses) <= |clauses|
  {
    if clauses != [] {
      var front := clauses[..|clauses| - 1];
      CountPositiveIff(e, d, front);
      if exists k :: 0 <= k < |clauses| && Accepts(e, d, clauses[k]) {
        var k :| 0 <= k < |clauses| && Accepts(e, d, clauses[k]);
        if k < |front| { assert Accepts(e, d, front[k]); }
      }
    }
  }

  predicate WordMatched(e: Engine, d: Doc, fields: seq<string>, w: Word, mt: MatchType, tol: Tolerance) {
    exists i :: 0 <= i < |fields| && Accepts(e, d, WordClause(fields[i], w, mt, tol))
  }

  /** How many of the words match in at least one field. */
  function WordsMatched(e: Engine, d: Doc, fields: seq<string>, words: seq<Word>, mt: MatchType, tol: Tolerance): nat {
    if words == [] then 0
    else WordsMatched(e, d, fields, words[..|words| - 1], mt, tol)
         + if WordMatched(e, d, fields, words[|words| - 1], mt, tol) then 1 else 0
  }

  lemma MatchedInOneMore(e: Engine, d: Doc, fields: seq<string>, f: string, w: Word, mt: MatchType, tol: Tolerance)
    ensures WordMatched(e, d, fields + [f], w, mt, tol)
            <==> WordMatched(e, d, fields, w, mt, tol) || Accepts(e, d, WordClause(f, w, mt, tol))
  {
    assert (fields + [f])[|fields|] == f && forall i :: 0 <= i < |fields| ==> (fields + [f])[i] == fields[i];
  }

  lemma {:induction false} OneMoreField(e: Engine, d: Doc, fields: seq<string>, f: string, words: seq<Word>,
                                        mt: MatchType, tol: Tolerance)
    ensures var before, now, row := WordsMatched(e, d, fields, words, mt, tol),
                                    WordsMatched(e, d, fields + [f], words, mt, tol),
                                    Count(e, d, Row(f, words, mt, tol));
            before <= now <= before + row && row <= now
  {
    if words != [] {
      var n := |words| - 1;
      OneMoreField(e, d, fields, f, words[..n], mt, tol);
      MatchedInOneMore(e, d, fields, f, words[n], mt, tol);
      assert Row(f, words, mt, tol)[..n] == Row(f, words[..n], mt, tol);
    }
  }

  lemma CountField(e: Engine, d: Doc, fields: seq<string>, words: seq<Word>, mt: MatchType, tol: Tolerance)
    requires fields != []
    ensures var n := |fields| - 1;
            Count(e, d, AnyWordClauses(fields, words, mt, tol))
            == Count(e, d, AnyWordClauses(fields[..n], words, mt, tol)) + Count(e, d, Row(fields[n], words, mt, tol))
  {
    var n := |fields| - 1;
    CountConcat(e, d, AnyWordClauses(fields[..n], words, mt, tol), Row(fields[n], words, mt, tol));
  }

  lemma BoundsExtend(n: nat, before: nat, now: nat, total: nat, row: nat)
    requires before <= now <= before + row && row <= now
    requires before <= total <= before * n
    ensures now <= total + row <= now * (n + 1)
  {
    MultiplyMonotone(before, now, n);
    assert now * (n + 1) == now * n + now;
  }

  /** `minimum_should_match` counts clauses, one for each field and word: their number lies between
      the number of matched words and that number times the fields. */
  lemma {:induction false} ClausesAgainstWords(e: Engine, d: Doc, fields: seq<string>, words: seq<Word>,
                                               mt: MatchType, tol: Tolerance)
    ensures var m := WordsMatched(e, d, fields, words, mt, tol);
            m <= Count(e, d, AnyWordClauses(fields, words, mt, tol)) <= m * |fields|
  {
    if fields == [] {
      NothingMatched(e, d, words, mt, tol);
    } else {
      var n := |fields| - 1;
      var front, f := fields[..n], fields[n];
      ClausesAgainstWords(e, d, front, words, mt, tol);
      CountField(e, d, fields, words, mt, tol);
      OneMoreField(e, d, front, f, words, mt, tol);
      assert front + [f] == fields;
      BoundsExtend(n, WordsMatched(e, d, front, words, mt, tol), WordsMatched(e, d, fields, words, mt, tol),
                   Count(e, d, AnyWordClauses(front, words, mt, tol)), Count(e, d, Row(f, words, mt, tol)));
    }
  }

  lemma Successor(k: nat, n: nat)
    ensures (k + 1) * n == k * n + n
  {
  }

  lemma MultiplyMonotone(a: nat, b: nat, n: nat)
    requires a <= b
    ensures a * n <= b * n
  {
  }

  lemma {:induction false} NothingMatched(e: Engine, d: Doc, words: seq<Word>, mt: MatchType, tol: Tolerance)
    ensures WordsMatched(e, d, [], words, mt, tol) == 0
  {
    if words != [] {
      NothingMatched(e, d, words[..|words| - 1], mt, tol);
    }
  }

  function Half(n: nat): nat {
    (n + 1) / 2
  }

  lemma AnyWordQuery(fields: seq<string>, words: seq<Word>, tol: Tolerance)
    requires words != [] && |Unique(words)| >= 2
    ensures TextQuery(fields, words, AnyWord, Fuzzy, tol).should == AnyWordClauses(fields, Unique(words), Fuzzy, tol)
  {
    var clauses := AnyWordClauses(fields, Unique(words), Fuzzy, tol);
    assert clauses + [] == clauses;
  }

  lemma NoClausesIff(fields: seq<string>, unique: seq<Word>, mt: MatchType, tol: Tolerance)
    requires unique != []
    ensures AnyWordClauses(fields, unique, mt, tol) == [] <==> fields == []
  {
  }

  /** Fuzzy any_word with three distinct words or more: documents matching half the words are found;
      a found document matches words that, counted once for each field, reach half; over one field
      the two agree. */
  lemma HalfTheWords(e: Engine, d: Doc, fields: seq<string>, words: seq<Word>, tol: Tolerance)
    requires words != [] && fields != [] && |Unique(words)| >= 3
    ensures var m := WordsMatched(e, d, fields, Unique(words), Fuzzy, tol);
            var found := FoundByText(e, d, fields, words, AnyWord, Fuzzy, tol);
            && (m >= Half(|Unique(words)|) ==> found)
            && (found ==> m * |fields| >= Half(|Unique(words)|))
            && (|fields| == 1 ==> (found <==> m >= Half(|Unique(words)|)))
  {
    AnyWordQuery(fields, words, tol);
    NoClausesIff(fields, Unique(words), Fuzzy, tol);
    ClausesAgainstWords(e, d, fields, Unique(words), Fuzzy, tol);
  }

  predicate WordOn(e: Engine, w: Word, tokens: seq<Word>, tol: Tolerance) {
    var c := WordClause("", w, Fuzzy, tol);
    WordIn(e, w, tokens, c.fuzziness, c.prefix)
  }

  /** How many of the words a single text matches. */
  function WordsOn(e: Engine, tokens: seq<Word>, words: seq<Word>, tol: Tolerance): nat {
    if words == [] then 0
    else WordsOn(e, tokens, words[..|words| - 1], tol) + if WordOn(e, words[|words| - 1], tokens, tol) then 1 else 0
  }

  lemma WordClauseAccepts(e: Engine, d: Doc, f: string, w: Word, tol: Tolerance)
    ensures Accepts(e, d, WordClause(f, w, Fuzzy, tol)) <==> WordOn(e, w, Tokens(d, f), tol)
  {
    var c := WordClause(f, w, Fuzzy, tol);
    assert c.text == [w] && w in c.text;
  }

  /** A document that says the same in every field. */
  function Everywhere(fields: seq<string>, tokens: seq<Word>): Doc {
    Doc("", map f | f in fields :: tokens, map[])
  }

  lemma {:induction false} RowCounts(e: Engine, d: Doc, f: string, words: seq<Word>, tol: Tolerance)
    ensures Count(e, d, Row(f, words, Fuzzy, tol)) == WordsOn(e, Tokens(d, f), words, tol)
  {
    if words != [] {
      var n := |words| - 1;
      RowCounts(e, d, f, words[..n], tol);
      assert Row(f, words, Fuzzy, tol)[..n] == Row(f, words[..n], Fuzzy, tol);
      WordClauseAccepts(e, d, f, words[n], tol);
    }
  }

  /** The document's text in all the fields, as one text. */
  function Gathered(d: Doc, fields: seq<string>): seq<Word> {
    if fields == [] then [] else Gathered(d, fields[..|fields| - 1]) + Tokens(d, fields[|fields| - 1])
  }

  lemma {:induction false} GatheredHolds(d: Doc, fields: seq<string>, t: Word)
    ensures t in Gathered(d, fields) <==> exists i :: 0 <= i < |fields| && t in Tokens(d, fields[i])
  {
    if fields != [] {
      var n := |fields| - 1;
      GatheredHolds(d, fields[..n], t);
      assert forall i :: 0 <= i < n ==> fields[..n][i] == fields[i];
    }
  }

  lemma MatchedIffOnGathered(e: Engine, d: Doc, fields: seq<string>, w: Word, tol: Tolerance)
    ensures WordMatched(e, d, fields, w, Fuzzy, tol) <==> WordOn(e, w, Gathered(d, fields), tol)
  {
    var c := WordClause("", w, Fuzzy, tol);
    if WordMatched(e, d, fields, w, Fuzzy, tol) {
      var i :| 0 <= i < |fields| && Accepts(e, d, WordClause(fields[i], w, Fuzzy, tol));
      WordClauseAccepts(e, d, fields[i], w, tol);
      var t :| t in Tokens(d, fields[i]) && TermMatches(e, w, t, c.fuzziness, c.prefix);
      GatheredHolds(d, fields, t);
    }
    if WordOn(e, w, Gathered(d, fields), tol) {
      var t :| t in Gathered(d, fields) && TermMatches(e, w, t, c.fuzziness, c.prefix);
      GatheredHolds(d, fields, t);
      var i :| 0 <= i < |fields| && t in Tokens(d, fields[i]);
      WordClauseAccepts(e, d, fields[i], w, tol);
    }
  }

  lemma {:induction false} GatheredMatched(e: Engine, d: Doc, fields: seq<string>, words: seq<Word>, tol: Tolerance)
    ensures WordsMatched(e, d, fields, words, Fuzzy, tol) == WordsOn(e, Gathered(d, fields), words, tol)
  {
    if words != [] {
      GatheredMatched(e, d, fields, words[..|words| - 1], tol);
      MatchedIffOnGathered(e, d, fields, words[|words| - 1], tol);
    }
  }

  lemma {:induction false} SameWordsOn(e: Engine, tokens: seq<Word>, others: seq<Word>, words: seq<Word>,
                                       tol: Tolerance)
    requires forall t :: t in tokens <==> t in others
    ensures WordsOn(e, tokens, words, tol) == WordsOn(e, others, words, tol)
  {
    if words != [] {
      SameWordsOn(e, tokens, others, words[..|words| - 1], tol);
    }
  }

  lemma EverywhereMatched(e: Engine, fields: seq<string>, tokens: seq<Word>, words: seq<Word>, tol: Tolerance)
    requires fields != []
    ensures WordsMatched(e, Everywhere(fields, tokens), fields, words, Fuzzy, tol) == WordsOn(e, tokens, words, tol)
  {
    var d := Everywhere(fields, tokens);
    GatheredMatched(e, d, fields, words, tol);
    forall t ensures t in Gathered(d, fields) <==> t in tokens {
      GatheredHolds(d, fields, t);
      assert fields[0] in fields && Tokens(d, fields[0]) == tokens;
    }
    SameWordsOn(e, Gathered(d, fields), tokens, words, tol);
  }

  lemma {:induction false} EqualRows(e: Engine, d: Doc, fields: seq<string>, words: seq<Word>, n: nat, tol: Tolerance)
    requires forall f :: f in fields ==> Count(e, d, Row(f, words, Fuzzy, tol)) == n
    ensures Count(e, d, AnyWordClauses(fields, words, Fuzzy, tol)) == |fields| * n
  {
    if fields != [] {
      var k := |fields| - 1;
      EqualRows(e, d, fields[..k], words, n, tol);
      CountField(e, d, fields, words, Fuzzy, tol);
      Successor(k, n);
    }
  }

  /** A text that, said in every field, is found with fewer than half of the words. */
  predicate Misread(e: Engine, fields: seq<string>, words: seq<Word>, tokens: seq<Word>, tol: Tolerance) {
    var m := WordsOn(e, tokens, words, tol);
    m < Half(|words|) <= m * |fields|
  }

  predicate HalfRead(e: Engine, d: Doc, fields: seq<string>, words: seq<Word>, tol: Tolerance)
    requires words != []
  {
    FoundByText(e, d, fields, words, AnyWord, Fuzzy, tol)
    <==> WordsMatched(e, d, fields, Unique(words), Fuzzy, tol) >= Half(|Unique(words)|)
  }

  lemma EverywhereIsMisread(e: Engine, fields: seq<string>, words: seq<Word>, tokens: seq<Word>, tol: Tolerance)
    requires words != [] && fields != [] && |Unique(words)| >= 3 && Misread(e, fields, Unique(words), tokens, tol)
    ensures !HalfRead(e, Everywhere(fields, tokens), fields, words, tol)
  {
    var unique, d := Unique(words), Everywhere(fields, tokens);
    var m := WordsOn(e, tokens, unique, tol);
    EverywhereMatched(e, fields, tokens, unique, tol);
    forall f | f in fields ensures Count(e, d, Row(f, unique, Fuzzy, tol)) == m {
      RowCounts(e, d, f, unique, tol);
    }
    EqualRows(e, d, fields, unique, m, tol);
    AnyWordQuery(fields, words, tol);
  }

  /** The reading "at least half of the words match" is right for every document exactly when no text
      matches fewer than half of the query's words and yet, counted once for each field, half of them. */
  lemma HalfReadingIff(e: Engine, fields: seq<string>, words: seq<Word>, tol: Tolerance)
    requires words != [] && fields != [] && |Unique(words)| >= 3
    ensures (forall d :: HalfRead(e, d, fields, words, tol))
            <==> forall tokens :: !Misread(e, fields, Unique(words), tokens, tol)
  {
    var unique := Unique(words);
    if tokens :| Misread(e, fields, unique, tokens, tol) {
      EverywhereIsMisread(e, fields, words, tokens, tol);
    } else {
      forall d ensures HalfRead(e, d, fields, words, tol) {
        HalfTheWords(e, d, fields, words, tol);
        GatheredMatched(e, d, fields, unique, tol);
        assert !Misread(e, fields, unique, Gathered(d, fields), tol);
      }
    }
  }

  /** No word of the query is within two edits of another. */
  ghost predicate Apart(e: Engine, words: seq<Word>) {
    forall i, j :: 0 <= i < |words| && 0 <= j < |words| && i != j ==> words[i] != words[j] && e.distance(words[i], words[j]) > 2
  }

  lemma ApartWordOn(e: Engine, words: seq<Word>, n: nat, k: nat, tol: Tolerance)
    requires Apart(e, words) && n <= |words| && k < |words|
    ensures WordOn(e, words[k], words[..n], tol) <==> k < n
  {
    var c := WordClause("", words[k], Fuzzy, tol);
    if k < n {
      assert words[..n][k] == words[k];
      assert TermMatches(e, words[k], words[k], c.fuzziness, c.prefix);
    } else {
      forall t | t in words[..n] ensures !TermMatches(e, words[k], t, c.fuzziness, c.prefix) {
        var j :| 0 <= j < n && words[..n][j] == t;
        assert words[k] != words[j] && e.distance(words[k], words[j]) > 2;
      }
    }
  }

  lemma {:induction false} ApartWordsOn(e: Engine, words: seq<Word>, n: nat, m: nat, tol: Tolerance)
    requires Apart(e, words) && n <= |words| && m <= |words|
    ensures WordsOn(e, words[..n], words[..m], tol) == Min(m, n)
  {
    if m > 0 {
      ApartWordsOn(e, words, n, m - 1, tol);
      assert words[..m][..m - 1] == words[..m - 1];
      ApartWordOn(e, words, n, m - 1, tol);
    }
  }

  /** So for words more than two edits apart it is right exactly when one field is searched: over two
      fields the documents with one word too few, each in every field, are found. */
  lemma HalfReadingOfApartWordsIff(e: Engine, fields: seq<string>, words: seq<Word>, tol: Tolerance)
    requires words != [] && fields != [] && |Unique(words)| >= 3 && Apart(e, Unique(words))
    ensures (forall d :: HalfRead(e, d, fields, words, tol)) <==> |fields| == 1
  {
    HalfReadingIff(e, fields, words, tol);
    if |fields| > 1 { ApartWordsAreMisread(e, fields, Unique(words), tol); }
  }

  lemma ApartWordsAreMisread(e: Engine, fields: seq<string>, words: seq<Word>, tol: Tolerance)
    requires |fields| >= 2 && |words| >= 3 && Apart(e, words)
    ensures Misread(e, fields, words, words[..Half(|words|) - 1], tol)
  {
    var n := Half(|words|) - 1;
    assert words[..|words|] == words;
    ApartWordsOn(e, words, n, |words|, tol);
    TwiceAtLeast(n, |fields|);
  }

  lemma TwiceAtLeast(n: nat, k: nat)
    requires k >= 2
    ensures n * k >= 2 * n
  {
  }

  // ---------------------------------------------------------------- typo tolerance

  function Rank(tol: Tolerance): nat {
    match tol case OtherTolerance => 0 case Low => 1 case Medium => 2 case High => 3
  }

  /** `b` asks for no more than `a` does. */
  predicate Looser(a: Clause, b: Clause) {
    a == b ||
    (a.Match? && b.Match? && a.field == b.field && a.text == b.text && a.all == b.all
     && (a.fuzziness == 0 || (a.fuzziness <= b.fuzziness && b.prefix <= a.prefix)))
  }

  predicate AllLooser(a: seq<Clause>, b: seq<Clause>) {
    |a| == |b| && forall k :: 0 <= k < |a| ==> Looser(a[k], b[k])
  }

  lemma WordInLooser(e: Engine, w: Word, tokens: seq<Word>, a: Clause, b: Clause)
    requires a.Match? && b.Match? && Looser(a, b) && WordIn(e, w, tokens, a.fuzziness, a.prefix)
    ensures WordIn(e, w, tokens, b.fuzziness, b.prefix)
  {
    var t :| t in tokens && TermMatches(e, w, t, a.fuzziness, a.prefix);
    if w != t {
      var k, l := Min(a.prefix, |w|), Min(b.prefix, |w|);
      assert w[..l] == w[..k][..l] && t[..l] == t[..k][..l];
    }
    assert TermMatches(e, w, t, b.fuzziness, b.prefix);
  }

  lemma LooserAccepts(e: Engine, d: Doc, a: Clause, b: Clause)
    requires Looser(a, b) && Accepts(e, d, a)
    ensures Accepts(e, d, b)
  {
    if a != b {
      var tokens := Tokens(d, a.field);
      forall w | w in a.text && WordIn(e, w, tokens, a.fuzziness, a.prefix)
        ensures WordIn(e, w, tokens, b.fuzziness, b.prefix)
      {
        WordInLooser(e, w, tokens, a, b);
      }
    }
  }

  lemma {:induction false} LooserCounts(e: Engine, d: Doc, a: seq<Clause>, b: seq<Clause>)
    requires AllLooser(a, b)
    ensures Count(e, d, a) <= Count(e, d, b)
  {
    if a != [] {
      var n := |a| - 1;
      LooserCounts(e, d, a[..n], b[..n]);
      if Accepts(e, d, a[n]) {
        LooserAccepts(e, d, a[n], b[n]);
      }
    }
  }

  lemma RowsLooser(f: string, words: seq<Word>, mt: MatchType, t: Tolerance, u: Tolerance)
    requires Rank(t) <= Rank(u)
    ensures AllLooser(Row(f, words, mt, t), Row(f, words, mt, u))
  {
    forall k | 0 <= k < |words| ensures Looser(WordClause(f, words[k], mt, t), WordClause(f, words[k], mt, u)) {
    }
  }

  lemma BothLooser(a: seq<Clause>, b: seq<Clause>, c: seq<Clause>, d: seq<Clause>)
    requires AllLooser(a, b) && AllLooser(c, d)
    ensures AllLooser(a + c, b + d)
  {
  }

  lemma {:induction false} AnyWordLooser(fields: seq<string>, words: seq<Word>, mt: MatchType, t: Tolerance,
                                         u: Tolerance)
    requires Rank(t) <= Rank(u)
    ensures AllLooser(AnyWordClauses(fields, words, mt, t), AnyWordClauses(fields, words, mt, u))
  {
    if fields != [] {
      var n := |fields| - 1;
      var a, b := AnyWordClauses(fields[..n], words, mt, t), AnyWordClauses(fields[..n], words, mt, u);
      AnyWordLooser(fields[..n], words, mt, t, u);
      RowsLooser(fields[n], words, mt, t, u);
      BothLooser(a, b, Row(fields[n], words, mt, t), Row(fields[n], words, mt, u));
    }
  }

  lemma QueriesLooser(fields: seq<string>, words: seq<Word>, mode: Mode, mt: MatchType, t: Tolerance, u: Tolerance)
    requires words != [] && Rank(t) <= Rank(u)
    ensures AllLooser(TextQuery(fields, words, mode, mt, t).should, TextQuery(fields, words, mode, mt, u).should)
  {
    var unique := Unique(words);
    var ngrams := if mt == Fuzzy && |unique| == 1 && mode != AllWords then NgramClauses(fields, words) else [];
    if NormalizedMode(mode, words) == AnyWord {
      AnyWordLooser(fields, unique, mt, t, u);
      BothLooser(AnyWordClauses(fields, unique, mt, t), AnyWordClauses(fields, unique, mt, u), ngrams, ngrams);
    } else {
      var a, b := FieldClauses(fields, words, mode, mt, t), FieldClauses(fields, words, mode, mt, u);
      forall k | 0 <= k < |fields| ensures Looser(a[k], b[k]) {
      }
      BothLooser(a, b, ngrams, ngrams);
    }
  }

  /** Whatever the query, mode and document, a more tolerant search finds all that a less tolerant one
      finds before thresholds, and its threshold is no higher. */
  lemma ToleranceIsMonotone(e: Engine, d: Doc, fields: seq<string>, words: seq<Word>, mode: Mode, mt: MatchType,
                            t: Tolerance, u: Tolerance)
    requires words != [] && Rank(t) <= Rank(u)
    ensures FoundByText(e, d, fields, words, mode, mt, t) ==> FoundByText(e, d, fields, words, mode, mt, u)
    ensures t != OtherTolerance ==>
              TextQuery(fields, words, mode, mt, t).minScore >= TextQuery(fields, words, mode, mt, u).minScore
  {
    var a, b := TextQuery(fields, words, mode, mt, t), TextQuery(fields, words, mode, mt, u);
    QueriesLooser(fields, words, mode, mt, t, u);
    LooserCounts(e, d, a.should, b.should);
    SelectsLooser(e, d, a, b);
  }

  lemma SelectsLooser(e: Engine, d: Doc, a: Must, b: Must)
    requires a.Should? && b.Should? && a.minimum == b.minimum
    requires AllLooser(a.should, b.should) && Count(e, d, a.should) <= Count(e, d, b.should)
    ensures Selects(e, d, a) ==> Selects(e, d, b)
  {
  }

  // ---------------------------------------------------------------- exact mode

  predicate HasAnyWord(d: Doc, fields: seq<string>, words: seq<Word>) {
    exists f :: f in fields && HasWordOf(Tokens(d, f), words)
  }

  predicate HasWords(tokens: seq<Word>, words: seq<Word>) {
    forall w :: w in words ==> w in tokens
  }

  predicate HasAllWords(d: Doc, fields: seq<string>, words: seq<Word>) {
    exists f :: f in fields && HasWords(Tokens(d, f), words)
  }

  predicate HasPhrase(d: Doc, fields: seq<string>, words: seq<Word>) {
    exists f :: f in fields && ContainsPhrase(Tokens(d, f), words)
  }

  predicate Has(d: Doc, fields: seq<string>, words: seq<Word>, mode: Mode) {
    match mode
    case AnyWord => HasAnyWord(d, fields, words)
    case AllWords => HasAllWords(d, fields, words)
    case Phrase => HasPhrase(d, fields, words)
  }

  lemma ExactWordIn(e: Engine, w: Word, tokens: seq<Word>)
    ensures WordIn(e, w, tokens, 0, 0) <==> w in tokens
  {
    if w in tokens { assert TermMatches(e, w, w, 0, 0); }
  }

  lemma ExactClauses(e: Engine, d: Doc, f: string, words: seq<Word>, w: Word)
    requires words != []
    ensures Accepts(e, d, WordClause(f, w, Exact, Low)) <==> w in Tokens(d, f)
    ensures Accepts(e, d, AllClause(f, words, Exact, Low)) <==> HasWords(Tokens(d, f), words)
  {
    ExactWordIn(e, w, Tokens(d, f));
    assert w in WordClause(f, w, Exact, Low).text;
    forall v | v in words ensures WordIn(e, v, Tokens(d, f), 0, 0) <==> v in Tokens(d, f) {
      ExactWordIn(e, v, Tokens(d, f));
    }
  }

  predicate HasWordOf(tokens: seq<Word>, words: seq<Word>) {
    exists w :: w in words && w in tokens
  }

  lemma SomeWordInRow(e: Engine, d: Doc, f: string, words: seq<Word>)
    ensures Count(e, d, Row(f, words, Exact, Low)) >= 1 <==> HasWordOf(Tokens(d, f), words)
  {
    var row := Row(f, words, Exact, Low);
    CountPositiveIff(e, d, row);
    forall k | 0 <= k < |words| ensures Accepts(e, d, row[k]) <==> words[k] in Tokens(d, f) {
      ExactClauses(e, d, f, words, words[k]);
    }
    if HasWordOf(Tokens(d, f), words) {
      var w :| w in words && w in Tokens(d, f);
      var k :| 0 <= k < |words| && words[k] == w;
      assert Accepts(e, d, row[k]);
    }
  }

  lemma AnyWordInFields(d: Doc, fields: seq<string>, words: seq<Word>)
    requires fields != []
    ensures var n := |fields| - 1;
            HasAnyWord(d, fields, words) <==> HasAnyWord(d, fields[..n], words) || HasWordOf(Tokens(d, fields[n]), words)
  {
    var n := |fields| - 1;
    assert fields == fields[..n] + [fields[n]];
    assert fields[n] in fields && forall g :: g in fields[..n] ==> g in fields;
  }

  lemma {:induction false} SomeWordClause(e: Engine, d: Doc, fields: seq<string>, words: seq<Word>)
    ensures Count(e, d, AnyWordClauses(fields, words, Exact, Low)) >= 1 <==> HasAnyWord(d, fields, words)
  {
    if fields != [] {
      var n := |fields| - 1;
      SomeWordClause(e, d, fields[..n], words);
      CountField(e, d, fields, words, Exact, Low);
      SomeWordInRow(e, d, fields[n], words);
      AnyWordInFields(d, fields, words);
    }
  }

  lemma SomeFieldClause(e: Engine, d: Doc, fields: seq<string>, words: seq<Word>, mode: Mode)
    requires words != [] && mode != AnyWord
    ensures Count(e, d, FieldClauses(fields, words, mode, Exact, Low)) >= 1 <==> Has(d, fields, words, mode)
  {
    var clauses := FieldClauses(fields, words, mode, Exact, Low);
    CountPositiveIff(e, d, clauses);
    forall k | 0 <= k < |fields|
      ensures Accepts(e, d, clauses[k]) <==> if mode == Phrase then ContainsPhrase(Tokens(d, fields[k]), words)
                                             else HasWords(Tokens(d, fields[k]), words)
    {
      ExactClauses(e, d, fields[k], words, words[0]);
    }
  }

  lemma ExactIgnoresTolerance(fields: seq<string>, words: seq<Word>, mode: Mode, tol: Tolerance)
    requires words != []
    ensures TextQuery(fields, words, mode, Exact, tol) == TextQuery(fields, words, mode, Exact, Low)
  {
    var u := Unique(words);
    ExactAnyWord(fields, u, tol);
    assert FieldClauses(fields, words, mode, Exact, tol) == FieldClauses(fields, words, mode, Exact, Low);
  }

  lemma {:induction false} ExactAnyWord(fields: seq<string>, words: seq<Word>, tol: Tolerance)
    ensures AnyWordClauses(fields, words, Exact, tol) == AnyWordClauses(fields, words, Exact, Low)
  {
    if fields != [] {
      ExactAnyWord(fields[..|fields| - 1], words, tol);
      var f := fields[|fields| - 1];
      assert Row(f, words, Exact, tol) == Row(f, words, Exact, Low);
    }
  }

  /** In exact mode the compiled query means what its (normalised) mode says. */
  lemma ExactMeaning(e: Engine, d: Doc, fields: seq<string>, words: seq<Word>, mode: Mode, tol: Tolerance)
    requires words != []
    ensures FoundByText(e, d, fields, words, mode, Exact, tol)
            <==> fields == [] || Has(d, fields, words, NormalizedMode(mode, words))
  {
    ExactIgnoresTolerance(fields, words, mode, tol);
    var q := TextQuery(fields, words, mode, Exact, Low);
    if NormalizedMode(mode, words) == AnyWord {
      var clauses := AnyWordClauses(fields, Unique(words), Exact, Low);
      assert clauses + [] == clauses;
      SomeWordClause(e, d, fields, Unique(words));
      NoClausesIff(fields, Unique(words), Exact, Low);
      assert forall f :: HasWordOf(Tokens(d, f), Unique(words)) <==> HasWordOf(Tokens(d, f), words);
    } else {
      var clauses := FieldClauses(fields, words, mode, Exact, Low);
      assert clauses + [] == clauses;
      SomeFieldClause(e, d, fields, words, mode);
    }
  }

  lemma PhraseHasWords(tokens: seq<Word>, words: seq<Word>)
    requires ContainsPhrase(tokens, words)
    ensures HasWords(tokens, words)
  {
    var i :| 0 <= i <= |tokens| && PhraseAt(tokens, words, i);
    forall w | w in words ensures w in tokens {
      var k :| 0 <= k < |words| && words[k] == w;
      assert tokens[i..i + |words|][k] == tokens[i + k];
    }
  }

  /** In exact mode phrase results are all_words results, and those are any_word results; for one
      distinct word the three modes are the same query. */
  lemma ExactModesNest(e: Engine, d: Doc, fields: seq<string>, words: seq<Word>, tol: Tolerance)
    requires words != []
    ensures FoundByText(e, d, fields, words, Phrase, Exact, tol)
            ==> FoundByText(e, d, fields, words, AllWords, Exact, tol)
    ensures FoundByText(e, d, fields, words, AllWords, Exact, tol)
            ==> FoundByText(e, d, fields, words, AnyWord, Exact, tol)
    ensures |Unique(words)| == 1 ==>
              TextQuery(fields, words, Phrase, Exact, tol) == TextQuery(fields, words, AllWords, Exact, tol)
              == TextQuery(fields, words, AnyWord, Exact, tol)
  {
    ExactMeaning(e, d, fields, words, Phrase, tol);
    ExactMeaning(e, d, fields, words, AllWords, tol);
    ExactMeaning(e, d, fields, words, AnyWord, tol);
    if HasPhrase(d, fields, words) {
      var f :| f in fields && ContainsPhrase(Tokens(d, f), words);
      PhraseHasWords(Tokens(d, f), words);
    }
    if HasAllWords(d, fields, words) {
      var f :| f in fields && HasWords(Tokens(d, f), words);
      assert words[0] in words && HasWordOf(Tokens(d, f), words);
    }
  }

  /** An exact phrase search finds exactly the documents with the phrase, unless the query repeats one
      word and nothing else: then a single occurrence is enough. */
  lemma PhraseReadingIff(e: Engine, fields: seq<string>, words: seq<Word>, tol: Tolerance)
    requires words != [] && fields != []
    ensures (forall d :: FoundByText(e, d, fields, words, Phrase, Exact, tol) <==> HasPhrase(d, fields, words))
            <==> |Unique(words)| != 1 || |words| == 1
  {
    if |Unique(words)| != 1 || |words| == 1 {
      forall d ensures FoundByText(e, d, fields, words, Phrase, Exact, tol) <==> HasPhrase(d, fields, words) {
        ExactMeaning(e, d, fields, words, Phrase, tol);
        if |words| == 1 { SingleWordPhrase(d, fields, words); }
      }
    } else {
      var w := words[0];
      var d := Doc("", map f | f in fields :: [w], map[]);
      ExactMeaning(e, d, fields, words, Phrase, tol);
      assert w in words && fields[0] in fields && w in Tokens(d, fields[0]);
      assert HasWordOf(Tokens(d, fields[0]), words);
      forall f | f in fields ensures !ContainsPhrase(Tokens(d, f), words) {
        assert |Tokens(d, f)| == 1;
      }
      assert !HasPhrase(d, fields, words);
    }
  }

  lemma SingleWordPhrase(d: Doc, fields: seq<string>, words: seq<Word>)
    requires |words| == 1
    ensures HasAnyWord(d, fields, words) <==> HasPhrase(d, fields, words)
  {
    assert words == [words[0]];
    forall f ensures HasWordOf(Tokens(d, f), words) <==> ContainsPhrase(Tokens(d, f), words) {
      var tokens := Tokens(d, f);
      if words[0] in tokens {
        var i :| 0 <= i < |tokens| && tokens[i] == words[0];
        assert PhraseAt(tokens, words, i);
      }
      if ContainsPhrase(tokens, words) { PhraseHasWords(tokens, words); }
    }
  }

  // ---------------------------------------------------------------- fuzzy mode

  /** In fuzzy mode a phrase of several words is no phrase at all: it compiles to the all_words query,
      which ignores order. */
  lemma FuzzyPhraseIsAllWords(fields: seq<string>, words: seq<Word>, tol: Tolerance)
    requires words != []
    ensures TextQuery(fields, words, Phrase, Fuzzy, tol) == TextQuery(fields, words, AllWords, Fuzzy, tol)
            <==> |Unique(words)| != 1 || fields == []
  {
    var p, a := TextQuery(fields, words, Phrase, Fuzzy, tol), TextQuery(fields, words, AllWords, Fuzzy, tol);
    if |Unique(words)| == 1 {
      assert |p.should| == |a.should| + |fields|;
    } else {
      assert FieldClauses(fields, words, Phrase, Fuzzy, tol) == FieldClauses(fields, words, AllWords, Fuzzy, tol);
    }
  }

  /** The words of each searched field are the same, in whatever order and number. */
  ghost predicate SameWordsAnyOrder(d: Doc, d': Doc, fields: seq<string>) {
    forall f, t :: f in fields ==> (t in Tokens(d, f) <==> t in Tokens(d', f))
  }

  lemma AcceptsAnyOrder(e: Engine, d: Doc, d': Doc, fields: seq<string>, c: Clause)
    requires SameWordsAnyOrder(d, d', fields) && c.field in fields && !c.MatchPhrase?
    ensures Accepts(e, d, c) <==> Accepts(e, d', c)
  {
    var tokens, tokens' := Tokens(d, c.field), Tokens(d', c.field);
    assert forall t :: t in tokens <==> t in tokens';
    if c.Match? {
      forall w ensures WordIn(e, w, tokens, c.fuzziness, c.prefix) <==> WordIn(e, w, tokens', c.fuzziness, c.prefix) {
      }
    }
  }

  lemma {:induction false} CountAnyOrder(e: Engine, d: Doc, d': Doc, fields: seq<string>, clauses: seq<Clause>)
    requires SameWordsAnyOrder(d, d', fields)
    requires Unordered(clauses, fields)
    ensures Count(e, d, clauses) == Count(e, d', clauses)
  {
    if clauses != [] {
      var n := |clauses| - 1;
      CountAnyOrder(e, d, d', fields, clauses[..n]);
      AcceptsAnyOrder(e, d, d', fields, clauses[n]);
    }
  }

  /** No fuzzy search, in any mode, tells apart documents whose fields hold the same words. */
  lemma FuzzyIgnoresOrder(e: Engine, d: Doc, d': Doc, fields: seq<string>, words: seq<Word>, mode: Mode, tol: Tolerance)
    requires words != [] && SameWordsAnyOrder(d, d', fields)
    ensures FoundByText(e, d, fields, words, mode, Fuzzy, tol) <==> FoundByText(e, d', fields, words, mode, Fuzzy, tol)
  {
    FuzzyClausesAreUnordered(fields, words, mode, tol);
    CountAnyOrder(e, d, d', fields, TextQuery(fields, words, mode, Fuzzy, tol).should);
  }

  /** Clauses on the searched fields, none of which looks at word order. */
  predicate Unordered(clauses: seq<Clause>, fields: seq<string>) {
    forall k :: 0 <= k < |clauses| ==> clauses[k].field in fields && !clauses[k].MatchPhrase?
  }

  lemma FieldClausesAreUnordered(fields: seq<string>, words: seq<Word>, mode: Mode, tol: Tolerance)
    requires words != []
    ensures Unordered(FieldClauses(fields, words, mode, Fuzzy, tol), fields)
    ensures Unordered(NgramClauses(fields, words), fields)
  {
  }

  lemma {:induction false} AnyWordClausesAreUnordered(fields: seq<string>, words: seq<Word>, tol: Tolerance)
    ensures Unordered(AnyWordClauses(fields, words, Fuzzy, tol), fields)
  {
    if fields != [] {
      var n := |fields| - 1;
      AnyWordClausesAreUnordered(fields[..n], words, tol);
      var before := AnyWordClauses(fields[..n], words, Fuzzy, tol);
      assert forall k :: 0 <= k < |before| ==> before[k].field in fields[..n];
    }
  }

  lemma FuzzyClausesAreUnordered(fields: seq<string>, words: seq<Word>, mode: Mode, tol: Tolerance)
    requires words != []
    ensures Unordered(TextQuery(fields, words, mode, Fuzzy, tol).should, fields)
  {
    AnyWordClausesAreUnordered(fields, Unique(words), tol);
    FieldClausesAreUnordered(fields, words, mode, tol);
  }

  function Rotated(words: seq<Word>): seq<Word>
    requires words != []
  {
    words[1..] + [words[0]]
  }

  lemma {:induction false} ConstantFrom(words: seq<Word>, k: nat)
    requires words != [] && Rotated(words) == words && k < |words|
    ensures words[k] == words[0]
  {
    if k > 0 {
      ConstantFrom(words, k - 1);
      assert Rotated(words)[k - 1] == words[k];
    }
  }

  lemma RotationDiffers(words: seq<Word>)
    requires words != [] && |Unique(words)| >= 2
    ensures Rotated(words) != words
  {
    if Rotated(words) == words {
      var u := Unique(words);
      assert u[0] in u && u[1] in u;
      var i :| 0 <= i < |words| && words[i] == u[0];
      var j :| 0 <= j < |words| && words[j] == u[1];
      ConstantFrom(words, i);
      ConstantFrom(words, j);
    }
  }

  /** So a fuzzy phrase of two distinct words or more always finds documents that do not hold the phrase,
      and that the exact search refuses: those that say it from its second word on and its first word last. */
  lemma FuzzyPhraseFindsRotation(e: Engine, fields: seq<string>, words: seq<Word>, tol: Tolerance)
    requires fields != [] && words != [] && |Unique(words)| >= 2
    ensures var d := Everywhere(fields, Rotated(words));
            && FoundByText(e, d, fields, words, Phrase, Fuzzy, tol)
            && !HasPhrase(d, fields, words)
            && !FoundByText(e, d, fields, words, Phrase, Exact, tol)
  {
    var d, rotated := Everywhere(fields, Rotated(words)), Rotated(words);
    RotationDiffers(words);
    forall f | f in fields ensures !ContainsPhrase(Tokens(d, f), words) {
      assert Tokens(d, f) == rotated && rotated[0..|words|] == rotated;
    }
    ExactMeaning(e, d, fields, words, Phrase, tol);
    var clauses := FieldClauses(fields, words, Phrase, Fuzzy, tol);
    assert TextQuery(fields, words, Phrase, Fuzzy, tol).should == clauses + [] == clauses;
    AllWordsThere(e, d, fields[0], words, rotated, tol);
    CountPositiveIff(e, d, clauses);
    assert Accepts(e, d, clauses[0]);
  }

  lemma AllWordsThere(e: Engine, d: Doc, f: string, words: seq<Word>, tokens: seq<Word>, tol: Tolerance)
    requires words != [] && Tokens(d, f) == tokens == Rotated(words)
    ensures Accepts(e, d, FieldClause(f, words, Phrase, Fuzzy, tol))
  {
    var c := FieldClause(f, words, Phrase, Fuzzy, tol);
    forall w | w in words ensures WordIn(e, w, tokens, c.fuzziness, c.prefix) {
      assert words == [words[0]] + words[1..];
      assert w in tokens && TermMatches(e, w, w, c.fuzziness, c.prefix);
    }
  }

  /** `t` is a typo of `w`: at most `edits` edits away, and alike in the first `prefix` letters or in
      half the length of `w`, whichever is less. */
  predicate Typo(e: Engine, w: Word, t: Word, edits: nat, prefix: nat) {
    var k := Min(prefix, Utf16Length(w) / 2);
    e.distance(w, t) <= edits && k <= |t| && w[..k] == t[..k]
  }

  /** What a fuzzy clause for one word accepts: the word itself, and for words of length four or more
      its typos within one, two or two edits and beyond the first three, two or one letters. */
  lemma FuzzyWordMeaning(e: Engine, d: Doc, f: string, w: Word)
    ensures Accepts(e, d, WordClause(f, w, Fuzzy, Low))
            <==> exists t :: t in Tokens(d, f) && (w == t || (Utf16Length(w) >= 4 && Typo(e, w, t, 1, 3)))
    ensures Accepts(e, d, WordClause(f, w, Fuzzy, Medium))
            <==> exists t :: t in Tokens(d, f) && (w == t || (Utf16Length(w) >= 4 && Typo(e, w, t, 2, 2)))
    ensures Accepts(e, d, WordClause(f, w, Fuzzy, High))
            <==> exists t :: t in Tokens(d, f) && (w == t || (Utf16Length(w) >= 4 && Typo(e, w, t, 2, 1)))
  {
    OneWord(e, d, f, w, Low, 1, 3);
    OneWord(e, d, f, w, Medium, 2, 2);
    OneWord(e, d, f, w, High, 2, 1);
  }

  lemma OneWord(e: Engine, d: Doc, f: string, w: Word, tol: Tolerance, edits: nat, prefix: nat)
    requires edits == Fuzziness(Fuzzy, tol) > 0 && prefix == PrefixLength(Fuzzy, tol)
    ensures Accepts(e, d, WordClause(f, w, Fuzzy, tol))
            <==> exists t :: t in Tokens(d, f) && (w == t || (Utf16Length(w) >= 4 && Typo(e, w, t, edits, prefix)))
  {
    var c := WordClause(f, w, Fuzzy, tol);
    assert c.text == [w] && w in c.text;
    forall t ensures TermMatches(e, w, t, c.fuzziness, c.prefix)
                     <==> w == t || (Utf16Length(w) >= 4 && Typo(e, w, t, edits, prefix)) {
      if Utf16Length(w) >= 4 { assert Min(c.prefix, |w|) == Min(prefix, Utf16Length(w) / 2); }
    }
    assert Accepts(e, d, c) <==> WordIn(e, w, Tokens(d, f), c.fuzziness, c.prefix);
  }

  /** One distinct word, fuzzy: phrase and any_word are the same query, and all_words finds no more,
      because it leaves the n-gram clauses out. */
  lemma FuzzySingleWord(e: Engine, d: Doc, fields: seq<string>, words: seq<Word>, tol: Tolerance)
    requires words != [] && |Unique(words)| == 1
    ensures TextQuery(fields, words, Phrase, Fuzzy, tol) == TextQuery(fields, words, AnyWord, Fuzzy, tol)
    ensures FoundByText(e, d, fields, words, AllWords, Fuzzy, tol)
            ==> FoundByText(e, d, fields, words, AnyWord, Fuzzy, tol)
  {
    var clauses, ngrams := AnyWordClauses(fields, Unique(words), Fuzzy, tol), NgramClauses(fields, words);
    var minScore := MinScore(Fuzzy, tol, 1);
    assert clauses + [] == clauses;
    assert TextQuery(fields, words, AllWords, Fuzzy, tol) == Should(clauses, 1, minScore);
    assert TextQuery(fields, words, AnyWord, Fuzzy, tol) == Should(clauses + ngrams, 1, minScore);
    NoClausesIff(fields, Unique(words), Fuzzy, tol);
    CountConcat(e, d, clauses, ngrams);
  }

  // ---------------------------------------------------------------- fuzzy all_words against any_word

  /** any_word asks no more of this word than all_words does: all_words is exact, or the word is fuzzy in
      both and its own half is no longer, as a prefix, than half the average. */
  predicate Covered(words: seq<Word>, w: Word, tol: Tolerance)
    requires words != []
  {
    var average, prefix := AverageLength(Unique(words)), PrefixLength(Fuzzy, tol);
    || Fuzziness(Fuzzy, tol) == 0
    || average < 4.0
    || (Utf16Length(w) >= 4 && Min(prefix, Utf16Length(w) / 2) <= Min(prefix, (average / 2.0).Floor))
  }

  function CoveredCount(words: seq<Word>, some: seq<Word>, tol: Tolerance): nat
    requires words != []
  {
    if some == [] then 0
    else CoveredCount(words, some[..|some| - 1], tol) + if Covered(words, some[|some| - 1], tol) then 1 else 0
  }

  /** How often a field is listed. */
  function Times(fields: seq<string>, f: string): nat {
    if fields == [] then 0 else Times(fields[..|fields| - 1], f) + if fields[|fields| - 1] == f then 1 else 0
  }

  lemma TimesExtends(fields: seq<string>, f: string, n: nat)
    requires fields != []
    ensures var k := Times(fields[..|fields| - 1], f);
            Times(fields, f) * n == k * n + if fields[|fields| - 1] == f then n else 0
  {
    Successor(Times(fields[..|fields| - 1], f), n);
  }

  lemma {:induction false} ListedFieldCounts(e: Engine, d: Doc, fields: seq<string>, f: string, words: seq<Word>,
                                             n: nat, tol: Tolerance)
    requires n <= Count(e, d, Row(f, words, Fuzzy, tol))
    ensures Times(fields, f) * n <= Count(e, d, AnyWordClauses(fields, words, Fuzzy, tol))
  {
    if fields != [] {
      ListedFieldCounts(e, d, fields[..|fields| - 1], f, words, n, tol);
      CountField(e, d, fields, words, Fuzzy, tol);
      TimesExtends(fields, f, n);
    }
  }

  lemma {:induction false} OnlyFieldCounts(e: Engine, d: Doc, fields: seq<string>, f: string, words: seq<Word>,
                                           n: nat, tol: Tolerance)
    requires n == Count(e, d, Row(f, words, Fuzzy, tol)) && forall g :: g != f ==> Tokens(d, g) == []
    ensures Count(e, d, AnyWordClauses(fields, words, Fuzzy, tol)) == Times(fields, f) * n
  {
    if fields != [] {
      var g := fields[|fields| - 1];
      OnlyFieldCounts(e, d, fields[..|fields| - 1], f, words, n, tol);
      CountField(e, d, fields, words, Fuzzy, tol);
      TimesExtends(fields, f, n);
      if g != f {
        RowCounts(e, d, g, words, tol);
        NothingOn(e, words, tol);
      }
    }
  }

  lemma {:induction false} NothingOn(e: Engine, words: seq<Word>, tol: Tolerance)
    ensures WordsOn(e, [], words, tol) == 0
  {
    if words != [] {
      NothingOn(e, words[..|words| - 1], tol);
    }
  }

  lemma CoveredIsOn(e: Engine, words: seq<Word>, w: Word, tokens: seq<Word>, tol: Tolerance)
    requires words != [] && Covered(words, w, tol)
    requires var all := AllClause("", words, Fuzzy, tol); WordIn(e, w, tokens, all.fuzziness, all.prefix)
    ensures WordOn(e, w, tokens, tol)
  {
    var all, one := AllClause("", words, Fuzzy, tol), WordClause("", w, Fuzzy, tol);
    var t :| t in tokens && TermMatches(e, w, t, all.fuzziness, all.prefix);
    if w != t {
      var k, l := Min(all.prefix, |w|), Min(one.prefix, |w|);
      assert w[..l] == w[..k][..l] && t[..l] == t[..k][..l];
    }
    assert TermMatches(e, w, t, one.fuzziness, one.prefix);
  }

  lemma {:induction false} CoveredWordsOn(e: Engine, words: seq<Word>, some: seq<Word>, tokens: seq<Word>,
                                          tol: Tolerance)
    requires words != []
    requires var all := AllClause("", words, Fuzzy, tol);
             forall w :: w in some ==> WordIn(e, w, tokens, all.fuzziness, all.prefix)
    ensures WordsOn(e, tokens, some, tol) >= CoveredCount(words, some, tol)
  {
    if some != [] {
      var n := |some| - 1;
      CoveredWordsOn(e, words, some[..n], tokens, tol);
      if Covered(words, some[n], tol) { CoveredIsOn(e, words, some[n], tokens, tol); }
    }
  }

  function Replaced(w: Word, k: nat, c: char): Word
    requires k < |w|
  {
    w[k := c]
  }

  /** One edit of one letter counts at most one, as in every edit distance. */
  ghost predicate Sane(e: Engine) {
    && (forall w, k: nat, c :: k < |w| ==> e.distance(w, Replaced(w, k, c)) <= 1)
    && forall w, c :: e.distance(w, w + [c]) <= 1
  }

  predicate Foreign(c: char, words: seq<Word>) {
    forall w :: w in words ==> c !in w
  }

  /** The first letter after the prefix is a `c`, in place of another or added. */
  function Mistyped(w: Word, prefix: nat, c: char): Word {
    if prefix < |w| then Replaced(w, prefix, c) else w + [c]
  }

  function Typos(some: seq<Word>, prefix: nat, c: char): seq<Word> {
    seq(|some|, i requires 0 <= i < |some| => Mistyped(some[i], prefix, c))
  }

  lemma TypoIsIn(e: Engine, w: Word, some: seq<Word>, prefix: nat, c: char, fuzziness: nat)
    requires Sane(e) && w in some && fuzziness > 0
    ensures WordIn(e, w, Typos(some, prefix, c), fuzziness, prefix)
  {
    var i :| 0 <= i < |some| && some[i] == w;
    var t, k := Mistyped(w, prefix, c), Min(prefix, |w|);
    assert Typos(some, prefix, c)[i] == t;
    assert t[..k] == w[..k];
    assert TermMatches(e, w, t, fuzziness, prefix);
  }

  /** A word without a `c` that must match exactly, or beyond the prefix, matches none of the typos. */
  lemma TypoIsOut(e: Engine, w: Word, some: seq<Word>, prefix: nat, c: char, fuzziness: nat, other: nat)
    requires c !in w && (fuzziness == 0 || prefix < other <= |w|)
    ensures !WordIn(e, w, Typos(some, prefix, c), fuzziness, other)
  {
    forall t | t in Typos(some, prefix, c) ensures !TermMatches(e, w, t, fuzziness, other) {
      var i :| 0 <= i < |some| && t == Mistyped(some[i], prefix, c);
      var k := if prefix < |some[i]| then prefix else |some[i]|;
      assert t[k] == c && c in t && k <= prefix;
      if fuzziness > 0 && other <= |t| {
        assert t[..other][k] == c && w[..other][k] == w[k] && w[k] in w;
      }
    }
  }

  lemma TypoOnIff(e: Engine, words: seq<Word>, w: Word, c: char, tol: Tolerance)
    requires Sane(e) && w in words && Foreign(c, words) && AllClause("", words, Fuzzy, tol).fuzziness > 0
    ensures var all := AllClause("", words, Fuzzy, tol);
            WordOn(e, w, Typos(Unique(words), all.prefix, c), tol) <==> Covered(words, w, tol)
  {
    var all, one := AllClause("", words, Fuzzy, tol), WordClause("", w, Fuzzy, tol);
    var tokens := Typos(Unique(words), all.prefix, c);
    TypoIsIn(e, w, Unique(words), all.prefix, c, all.fuzziness);
    if Covered(words, w, tol) {
      CoveredIsOn(e, words, w, tokens, tol);
    } else {
      TypoIsOut(e, w, Unique(words), all.prefix, c, one.fuzziness, one.prefix);
    }
  }

  lemma {:induction false} TyposOn(e: Engine, words: seq<Word>, some: seq<Word>, c: char, tol: Tolerance)
    requires Sane(e) && words != [] && (forall w :: w in some ==> w in words)
    requires Foreign(c, words) && AllClause("", words, Fuzzy, tol).fuzziness > 0
    ensures var all := AllClause("", words, Fuzzy, tol);
            WordsOn(e, Typos(Unique(words), all.prefix, c), some, tol) == CoveredCount(words, some, tol)
  {
    if some != [] {
      TyposOn(e, words, some[..|some| - 1], c, tol);
      TypoOnIff(e, words, some[|some| - 1], c, tol);
    }
  }

  /** Every listed field, on its own, has enough covered words to meet the minimum. */
  predicate Nests(fields: seq<string>, words: seq<Word>, tol: Tolerance)
    requires words != []
  {
    forall f :: f in fields ==> Enough(words, Times(fields, f), tol)
  }

  predicate Enough(words: seq<Word>, times: nat, tol: Tolerance)
    requires words != []
  {
    times * CoveredCount(words, Unique(words), tol) >= MinimumShouldMatch(AnyWord, Fuzzy, |Unique(words)|)
  }

  function OnlyIn(f: string, tokens: seq<Word>): Doc {
    Doc("", map[f := tokens], map[])
  }

  lemma AllWordsQuery(e: Engine, d: Doc, fields: seq<string>, words: seq<Word>, tol: Tolerance)
    requires words != [] && fields != [] && |Unique(words)| >= 2
    ensures FoundByText(e, d, fields, words, AllWords, Fuzzy, tol)
            <==> exists i :: 0 <= i < |fields| && Accepts(e, d, AllClause(fields[i], words, Fuzzy, tol))
  {
    var clauses := FieldClauses(fields, words, AllWords, Fuzzy, tol);
    assert clauses + [] == clauses;
    CountPositiveIff(e, d, clauses);
    assert forall i :: 0 <= i < |fields| ==> clauses[i] == AllClause(fields[i], words, Fuzzy, tol);
  }

  lemma AnyWordFinds(e: Engine, d: Doc, fields: seq<string>, words: seq<Word>, tol: Tolerance)
    requires words != [] && fields != [] && |Unique(words)| >= 2
    ensures FoundByText(e, d, fields, words, AnyWord, Fuzzy, tol)
            <==> Count(e, d, AnyWordClauses(fields, Unique(words), Fuzzy, tol))
                 >= MinimumShouldMatch(AnyWord, Fuzzy, |Unique(words)|)
  {
    AnyWordQuery(fields, words, tol);
    NoClausesIff(fields, Unique(words), Fuzzy, tol);
  }

  lemma FieldCoversWords(e: Engine, d: Doc, fields: seq<string>, f: string, words: seq<Word>, tol: Tolerance)
    requires words != [] && Accepts(e, d, AllClause(f, words, Fuzzy, tol))
    ensures Count(e, d, AnyWordClauses(fields, Unique(words), Fuzzy, tol))
            >= Times(fields, f) * CoveredCount(words, Unique(words), tol)
  {
    var unique, all := Unique(words), AllClause(f, words, Fuzzy, tol);
    assert forall w :: w in unique ==> WordIn(e, w, Tokens(d, f), all.fuzziness, all.prefix);
    CoveredWordsOn(e, words, unique, Tokens(d, f), tol);
    RowCounts(e, d, f, unique, tol);
    ListedFieldCounts(e, d, fields, f, unique, CoveredCount(words, unique, tol), tol);
  }

  lemma NestedWhenCovered(e: Engine, d: Doc, fields: seq<string>, words: seq<Word>, tol: Tolerance)
    requires words != [] && fields != [] && |Unique(words)| >= 2 && Nests(fields, words, tol)
    requires FoundByText(e, d, fields, words, AllWords, Fuzzy, tol)
    ensures FoundByText(e, d, fields, words, AnyWord, Fuzzy, tol)
  {
    AllWordsQuery(e, d, fields, words, tol);
    AnyWordFinds(e, d, fields, words, tol);
    var i :| 0 <= i < |fields| && Accepts(e, d, AllClause(fields[i], words, Fuzzy, tol));
    FieldCoversWords(e, d, fields, fields[i], words, tol);
    assert Enough(words, Times(fields, fields[i]), tol);
  }

  lemma {:induction false} CoveredAtMost(words: seq<Word>, some: seq<Word>, tol: Tolerance)
    requires words != []
    ensures CoveredCount(words, some, tol) <= |some|
    ensures (forall w :: Covered(words, w, tol)) ==> CoveredCount(words, some, tol) == |some|
  {
    if some != [] {
      CoveredAtMost(words, some[..|some| - 1], tol);
    }
  }

  lemma {:induction false} ListedAtLeastOnce(fields: seq<string>, f: string)
    requires f in fields
    ensures Times(fields, f) >= 1
  {
    var n := |fields| - 1;
    if fields[n] != f {
      assert fields == fields[..n] + [fields[n]];
      ListedAtLeastOnce(fields[..n], f);
    }
  }

  lemma ExactAllWordsNests(fields: seq<string>, words: seq<Word>, f: string, tol: Tolerance)
    requires words != [] && f in fields && AllClause("", words, Fuzzy, tol).fuzziness == 0
    ensures Enough(words, Times(fields, f), tol)
  {
    CoveredAtMost(words, Unique(words), tol);
    ListedAtLeastOnce(fields, f);
    MultiplyMonotone(1, Times(fields, f), |Unique(words)|);
  }

  /** A document with one typo of each word, in one field only. */
  function TypoDoc(words: seq<Word>, f: string, c: char, tol: Tolerance): Doc
    requires words != []
  {
    OnlyIn(f, Typos(Unique(words), AllClause("", words, Fuzzy, tol).prefix, c))
  }

  lemma TypoDocFound(e: Engine, fields: seq<string>, words: seq<Word>, f: string, c: char, tol: Tolerance)
    requires Sane(e) && words != [] && f in fields && |Unique(words)| >= 2
    requires AllClause("", words, Fuzzy, tol).fuzziness > 0
    ensures FoundByText(e, TypoDoc(words, f, c, tol), fields, words, AllWords, Fuzzy, tol)
  {
    var d, all := TypoDoc(words, f, c, tol), AllClause(f, words, Fuzzy, tol);
    forall w | w in words ensures WordIn(e, w, Tokens(d, f), all.fuzziness, all.prefix) {
      TypoIsIn(e, w, Unique(words), all.prefix, c, all.fuzziness);
    }
    AllWordsQuery(e, d, fields, words, tol);
  }

  lemma TypoDocCounts(e: Engine, fields: seq<string>, words: seq<Word>, f: string, c: char, tol: Tolerance)
    requires Sane(e) && words != [] && Foreign(c, words) && AllClause("", words, Fuzzy, tol).fuzziness > 0
    ensures Count(e, TypoDoc(words, f, c, tol), AnyWordClauses(fields, Unique(words), Fuzzy, tol))
            == Times(fields, f) * CoveredCount(words, Unique(words), tol)
  {
    var d, unique := TypoDoc(words, f, c, tol), Unique(words);
    TyposOn(e, words, unique, c, tol);
    RowCounts(e, d, f, unique, tol);
    OnlyFieldCounts(e, d, fields, f, unique, CoveredCount(words, unique, tol), tol);
  }

  lemma TyposEscape(e: Engine, fields: seq<string>, words: seq<Word>, f: string, c: char, tol: Tolerance)
    requires Sane(e) && words != [] && Foreign(c, words)
    requires f in fields && |Unique(words)| >= 2 && !Enough(words, Times(fields, f), tol)
    ensures FoundByText(e, TypoDoc(words, f, c, tol), fields, words, AllWords, Fuzzy, tol)
    ensures !FoundByText(e, TypoDoc(words, f, c, tol), fields, words, AnyWord, Fuzzy, tol)
  {
    if AllClause("", words, Fuzzy, tol).fuzziness == 0 { ExactAllWordsNests(fields, words, f, tol); }
    TypoDocFound(e, fields, words, f, c, tol);
    TypoDocCounts(e, fields, words, f, c, tol);
    AnyWordFinds(e, TypoDoc(words, f, c, tol), fields, words, tol);
  }

  lemma OneWordNests(fields: seq<string>, words: seq<Word>, tol: Tolerance)
    requires words != [] && |Unique(words)| == 1
    ensures Nests(fields, words, tol)
  {
    var unique := Unique(words);
    assert unique[..0] == [] && Letters(unique) == Utf16Length(unique[0]);
    HalfFloor(Utf16Length(unique[0]));
    assert CoveredCount(words, unique, tol) == 1;
    forall f | f in fields ensures Enough(words, Times(fields, f), tol) {
      ListedAtLeastOnce(fields, f);
    }
  }

  lemma HalfFloor(n: nat)
    ensures n as real / 1.0 == n as real && (n as real / 2.0).Floor == n / 2
  {
  }

  /** With enough covered words fuzzy all_words lies within any_word, whatever the engine. */
  lemma CoveredAllWordsNests(e: Engine, d: Doc, fields: seq<string>, words: seq<Word>, tol: Tolerance)
    requires words != [] && Nests(fields, words, tol) && FoundByText(e, d, fields, words, AllWords, Fuzzy, tol)
    ensures FoundByText(e, d, fields, words, AnyWord, Fuzzy, tol)
  {
    if |Unique(words)| == 1 {
      FuzzySingleWord(e, d, fields, words, tol);
    } else if fields == [] {
      NoClausesIff(fields, Unique(words), Fuzzy, tol);
      AnyWordQuery(fields, words, tol);
    } else {
      NestedWhenCovered(e, d, fields, words, tol);
    }
  }

  ghost predicate AllWordsWithin(e: Engine, fields: seq<string>, words: seq<Word>, tol: Tolerance)
    requires words != []
  {
    forall d :: FoundByText(e, d, fields, words, AllWords, Fuzzy, tol)
                ==> FoundByText(e, d, fields, words, AnyWord, Fuzzy, tol)
  }

  lemma AllWordsWithinIff(e: Engine, fields: seq<string>, words: seq<Word>, c: char, tol: Tolerance)
    requires Sane(e) && words != [] && Foreign(c, words)
    ensures AllWordsWithin(e, fields, words, tol) <==> Nests(fields, words, tol)
  {
    if Nests(fields, words, tol) {
      forall d | FoundByText(e, d, fields, words, AllWords, Fuzzy, tol)
        ensures FoundByText(e, d, fields, words, AnyWord, Fuzzy, tol)
      {
        CoveredAllWordsNests(e, d, fields, words, tol);
      }
    } else {
      if |Unique(words)| == 1 { OneWordNests(fields, words, tol); }
      var f :| f in fields && !Enough(words, Times(fields, f), tol);
      TyposEscape(e, fields, words, f, c, tol);
    }
  }

  // A query that is not refused leaves letters unused.

  lemma {:induction false} WordLetters(s: string)
    ensures forall w, c :: w in Words(s) && c in w ==> c in s
    decreases |s|
  {
    if s != [] {
      assert s == [s[0]] + s[1..];
      if IsSpace(s[0]) {
        WordLetters(s[1..]);
      } else {
        var n := WordEnd(s);
        assert s == s[..n] + s[n..];
        WordLetters(s[n..]);
        assert Words(s) == [s[..n]] + Words(s[n..]);
      }
    }
  }

  lemma {:induction false} LettersUsed(s: string)
    ensures |set c | c in s| <= |s|
  {
    if s == [] {
      assert (set c | c in s) == {};
    } else {
      LettersUsed(s[1..]);
      assert (set c | c in s) == (set c | c in s[1..]) + {s[0]} by { assert s == [s[0]] + s[1..]; }
    }
  }

  lemma {:induction false} UnusedLetter(used: set<char>, n: nat) returns (c: char)
    requires |used| < n <= 1000
    ensures c !in used && c as int < n
    decreases n
  {
    c := (n - 1) as char;
    if c in used {
      c := UnusedLetter(used - {c}, n - 1);
    }
  }

  /** Unlike in exact mode, fuzzy all_words need not lie within any_word: any_word takes words shorter than
      four exactly and measures each word's prefix by the word itself, all_words by the average. For every
      search that is not refused, and every engine that counts one edit as one, it lies within exactly
      when enough words are covered. */
  lemma FuzzyAllWordsNestsIff(e: Engine, fields: seq<string>, query: string, tol: Tolerance)
    requires Sane(e) && Trim(query) != [] && Utf16Length(Trim(query)) <= 200
    ensures AllWordsWithin(e, fields, Words(Trim(query)), tol) <==> Nests(fields, Words(Trim(query)), tol)
  {
    var s := Trim(query);
    LettersUsed(s);
    WordLetters(s);
    var c := UnusedLetter(set c | c in s, 201);
    AllWordsWithinIff(e, fields, Words(s), c, tol);
  }

  const SHORT_AND_LONG: seq<Word> := ["ab", "cd", "programming"]

  /** The failing case: for two short words and a long one, of average length five, all_words takes one
      more letter on the short words and any_word does not. */
  lemma FuzzyAllWordsFindsMore(e: Engine, f: string)
    requires Sane(e)
    ensures var d := OnlyIn(f, ["abx", "cdx", "programming"]);
            && FoundByText(e, d, [f], SHORT_AND_LONG, AllWords, Fuzzy, Medium)
            && !FoundByText(e, d, [f], SHORT_AND_LONG, AnyWord, Fuzzy, Medium)
  {
    var tokens := ["abx", "cdx", "programming"];
    ShortAndLongUnique();
    ShortAndLongAll(e, OnlyIn(f, tokens), f);
    ShortAndLongAny(e, tokens);
    FoundInOneField(e, f, OnlyIn(f, tokens), SHORT_AND_LONG, Medium);
    CountedInOneField(e, f, SHORT_AND_LONG, tokens, Medium);
    AnyWordFinds(e, OnlyIn(f, tokens), [f], SHORT_AND_LONG, Medium);
  }

  lemma FoundInOneField(e: Engine, f: string, d: Doc, words: seq<Word>, tol: Tolerance)
    requires words != [] && |Unique(words)| >= 2 && Accepts(e, d, AllClause(f, words, Fuzzy, tol))
    ensures FoundByText(e, d, [f], words, AllWords, Fuzzy, tol)
  {
    AllWordsQuery(e, d, [f], words, tol);
    assert Accepts(e, d, AllClause([f][0], words, Fuzzy, tol));
  }

  lemma CountedInOneField(e: Engine, f: string, words: seq<Word>, tokens: seq<Word>, tol: Tolerance)
    ensures Count(e, OnlyIn(f, tokens), AnyWordClauses([f], words, Fuzzy, tol)) == WordsOn(e, tokens, words, tol)
  {
    assert [f][..0] == [] && AnyWordClauses([f][..0], words, Fuzzy, tol) == [];
    assert AnyWordClauses([f], words, Fuzzy, tol) == Row(f, words, Fuzzy, tol);
    RowCounts(e, OnlyIn(f, tokens), f, words, tol);
  }

  lemma ShortAndLongUnique()
    ensures Unique(SHORT_AND_LONG) == SHORT_AND_LONG
  {
    var w, one, two := SHORT_AND_LONG, ["ab"], ["ab", "cd"];
    assert w[..2] == two && two[..1] == one && one[..0] == [];
    assert Unique(one) == one;
    assert Unique(two) == two;
  }

  lemma ShortAndLongAll(e: Engine, d: Doc, f: string)
    requires Sane(e) && Tokens(d, f) == ["abx", "cdx", "programming"] && Unique(SHORT_AND_LONG) == SHORT_AND_LONG
    ensures Accepts(e, d, AllClause(f, SHORT_AND_LONG, Fuzzy, Medium))
  {
    var w, tokens := SHORT_AND_LONG, Tokens(d, f);
    ShortAndLongLetters(["ab"], ["ab", "cd"], w);
    assert AllClause(f, w, Fuzzy, Medium) == Match(f, w, true, 2, 2);
    OneMoreLetter(e, w[0], tokens[0], 'x');
    OneMoreLetter(e, w[1], tokens[1], 'x');
    forall v | v in w ensures WordIn(e, v, tokens, 2, 2) {
      var i :| 0 <= i < 3 && v == w[i];
      assert tokens[i] in tokens && TermMatches(e, v, tokens[i], 2, 2);
    }
  }

  lemma OneMoreLetter(e: Engine, w: Word, t: Word, c: char)
    requires Sane(e) && |w| == 2 && t == w + [c]
    ensures TermMatches(e, w, t, 2, 2)
  {
    assert t[..2] == w == w[..2];
  }

  lemma ShortAndLongAny(e: Engine, tokens: seq<Word>)
    requires tokens == ["abx", "cdx", "programming"]
    ensures WordsOn(e, tokens, SHORT_AND_LONG, Medium) <= 1
  {
    var w, one, two := SHORT_AND_LONG, ["ab"], ["ab", "cd"];
    assert w[..2] == two && two[..1] == one && one[..0] == [];
    ShortIsExact(e, "ab", tokens);
    ShortIsExact(e, "cd", tokens);
    assert WordsOn(e, tokens, one, Medium) == 0;
    assert WordsOn(e, tokens, two, Medium) == 0;
  }

  lemma ShortIsExact(e: Engine, w: Word, tokens: seq<Word>)
    requires |w| == 2 && w[0] as int < 128 && w[1] as int < 128 && forall t :: t in tokens ==> |t| > 2
    ensures !WordOn(e, w, tokens, Medium)
  {
    AsciiLength(w);
  }

  lemma ShortAndLongLetters(one: seq<Word>, two: seq<Word>, three: seq<Word>)
    requires one == ["ab"] && two == one + ["cd"] && three == two + ["programming"]
    ensures Letters(three) == 15
  {
    AsciiLength("ab");
    AsciiLength("cd");
    AsciiLength("programming");
    assert three[..2] == two && two[..1] == one && one[..0] == [];
    assert Letters(one) == 2 && Letters(two) == 4;
  }

  lemma {:induction false} AsciiLength(s: string)
    requires forall k :: 0 <= k < |s| ==> s[k] as int < 128
    ensures Utf16Length(s) == |s|
  {
    if s != [] {
      AsciiLength(s[..|s| - 1]);
    }
  }

  // ---------------------------------------------------------------- text search by the names of its options

  /** The query has two different words. */
  predicate Several(words: seq<Word>) {
    exists i, j :: 0 <= i < |words| && 0 <= j < |words| && words[i] != words[j]
  }

  /** Exact mode: "phrase" looks for the phrase, "all_words" for all words in one field, anything else for
      any word; of one word alone they are all the same. */
  predicate ExactlyWanted(d: Doc, fields: seq<string>, words: seq<Word>, searchMode: string) {
    if searchMode == "phrase" && Several(words) then exists f :: f in fields && ContainsPhrase(Tokens(d, f), words)
    else if searchMode == "all_words" then exists f :: f in fields && forall w :: w in words ==> w in Tokens(d, f)
    else exists f, w :: f in fields && w in words && w in Tokens(d, f)
  }

  function EditsOf(typoTolerance: string): nat {
    if typoTolerance == "low" then 1
    else if typoTolerance == "medium" || typoTolerance == "" || typoTolerance == "high" then 2
    else 0
  }

  function FixedLettersOf(typoTolerance: string): nat {
    if typoTolerance == "low" then 3
    else if typoTolerance == "medium" || typoTolerance == "" then 2
    else if typoTolerance == "high" then 1
    else 0
  }

  /** The word is there or, if it has four letters or more, a typo of it is. */
  predicate WordHit(e: Engine, d: Doc, f: string, w: Word, edits: nat, prefix: nat) {
    || w in Tokens(d, f)
    || (edits > 0 && Utf16Length(w) >= 4 && exists t :: t in Tokens(d, f) && Typo(e, w, t, edits, prefix))
  }

  predicate GramHit(e: Engine, d: Doc, f: string, words: seq<Word>) {
    exists w, t :: w in words && t in Tokens(d, f) && e.grams(w) * e.grams(t) != {}
  }

  /** Positions of fields, each with a word that hits there. */
  function Hits(e: Engine, d: Doc, fields: seq<string>, words: seq<Word>, edits: nat, prefix: nat): set<(nat, Word)> {
    set i: nat, w | i < |fields| && w in words && WordHit(e, d, fields[i], w, edits, prefix) :: (i, w)
  }

  function TotalLength(words: seq<Word>): nat {
    if words == [] then 0 else Utf16Length(words[0]) + TotalLength(words[1..])
  }

  function Average(words: seq<Word>): real
    requires words != []
  {
    TotalLength(Unique(words)) as real / |Unique(words)| as real
  }

  /** Every word is there, up to typos if the distinct words have four letters or more on the average. */
  predicate AllHit(e: Engine, d: Doc, f: string, words: seq<Word>, edits: nat, prefix: nat)
    requires words != []
  {
    forall w :: w in words ==>
      || w in Tokens(d, f)
      || (edits > 0 && Average(words) >= 4.0
          && WordIn(e, w, Tokens(d, f), edits, Min(prefix, (Average(words) / 2.0).Floor)))
  }

  /** Fuzzy mode: one word alone hits or, except in "all_words", shares an n-gram; of several words "phrase"
      and "all_words" both want all in one field; anything else wants one hit, or of three distinct
      words or more as many hits as half their number, rounded up. */
  predicate FuzzilyWanted(e: Engine, d: Doc, fields: seq<string>, words: seq<Word>, searchMode: string, edits: nat, prefix: nat)
    requires words != []
  {
    if !Several(words) then
      exists f :: f in fields && (WordHit(e, d, f, words[0], edits, prefix)
                                  || (searchMode != "all_words" && GramHit(e, d, f, words)))
    else if searchMode == "phrase" || searchMode == "all_words" then
      exists f :: f in fields && AllHit(e, d, f, words, edits, prefix)
    else
      var n := |set w | w in words|;
      |Hits(e, d, fields, words, edits, prefix)| >= if n < 3 then 1 else (n + 1) / 2
  }

  /** What a text search wants of a document, by the names of its options. */
  predicate TextWanted(e: Engine, d: Doc, fields: seq<string>, words: seq<Word>, searchMode: string, matchType: string,
                       typoTolerance: string)
    requires words != []
  {
    || fields == []
    || if matchType == "" || matchType == "fuzzy" then
         FuzzilyWanted(e, d, fields, words, searchMode, EditsOf(typoTolerance), FixedLettersOf(typoTolerance))
       else ExactlyWanted(d, fields, words, searchMode)
  }

  lemma DistinctCount(u: seq<Word>)
    requires forall i, j :: 0 <= i < j < |u| ==> u[i] != u[j]
    ensures |set w | w in u| == |u|
  {
    if u == [] {
      assert (set w | w in u) == {};
    } else {
      var n := |u| - 1;
      DistinctCount(u[..n]);
      assert u == u[..n] + [u[n]];
      assert (set w | w in u) == (set w | w in u[..n]) + {u[n]};
    }
  }

  lemma SeveralIff(words: seq<Word>)
    requires words != []
    ensures Several(words) <==> |Unique(words)| >= 2
    ensures |set w | w in words| == |Unique(words)| >= 1
  {
    var u := Unique(words);
    assert (set w | w in words) == (set w | w in u);
    DistinctCount(u);
    if |u| >= 2 {
      assert u[0] in words && u[1] in words;
    }
    if Several(words) {
      var i, j :| 0 <= i < |words| && 0 <= j < |words| && words[i] != words[j];
      assert words[i] in u && words[j] in u;
    }
  }

  lemma {:induction false} LettersAreTotal(words: seq<Word>)
    ensures Letters(words) == TotalLength(words)
  {
    if |words| == 1 {
      assert words[..0] == [] && words[1..] == [];
      assert Letters(words[..0]) == 0 && TotalLength(words[1..]) == 0;
    } else if words != [] {
      var n := |words| - 1;
      LettersAreTotal(words[..n]);
      LettersAreTotal(words[1..]);
      LettersAreTotal(words[1..][..n - 1]);
      assert words[..n][1..] == words[1..][..n - 1];
    }
  }

  lemma NamedTolerance(typoTolerance: string)
    ensures Fuzziness(Fuzzy, ToleranceOf(typoTolerance)) == EditsOf(typoTolerance)
    ensures PrefixLength(Fuzzy, ToleranceOf(typoTolerance)) == FixedLettersOf(typoTolerance)
  {
  }

  lemma HitIsAccepted(e: Engine, d: Doc, f: string, w: Word, typoTolerance: string)
    ensures WordHit(e, d, f, w, EditsOf(typoTolerance), FixedLettersOf(typoTolerance))
            <==> Accepts(e, d, WordClause(f, w, Fuzzy, ToleranceOf(typoTolerance)))
  {
    var tol, edits, prefix := ToleranceOf(typoTolerance), EditsOf(typoTolerance), FixedLettersOf(typoTolerance);
    NamedTolerance(typoTolerance);
    if edits > 0 {
      OneWord(e, d, f, w, tol, edits, prefix);
    } else {
      WordClauseAccepts(e, d, f, w, tol);
      ExactWordIn(e, w, Tokens(d, f));
      WordInWithoutEdits(e, w, Tokens(d, f), WordClause("", w, Fuzzy, tol).prefix);
    }
  }

  lemma WordInWithoutEdits(e: Engine, w: Word, tokens: seq<Word>, prefix: nat)
    ensures WordIn(e, w, tokens, 0, prefix) <==> w in tokens
  {
    if w in tokens { assert TermMatches(e, w, w, 0, prefix); }
  }

  lemma AllClauseByName(f: string, words: seq<Word>, typoTolerance: string)
    requires words != []
    ensures AllClause(f, words, Fuzzy, ToleranceOf(typoTolerance))
            == if Average(words) >= 4.0 then
                 Match(f, words, true, EditsOf(typoTolerance), Min(FixedLettersOf(typoTolerance), (Average(words) / 2.0).Floor))
               else Match(f, words, true, 0, 0)
  {
    NamedTolerance(typoTolerance);
    LettersAreTotal(Unique(words));
  }

  lemma WordInIff(e: Engine, w: Word, tokens: seq<Word>, fuzziness: nat, prefix: nat)
    ensures WordIn(e, w, tokens, fuzziness, prefix)
            <==> w in tokens || (fuzziness > 0 && WordIn(e, w, tokens, fuzziness, prefix))
  {
    if w in tokens { assert TermMatches(e, w, w, fuzziness, prefix); }
  }

  lemma AllHitIsAccepted(e: Engine, d: Doc, f: string, words: seq<Word>, typoTolerance: string)
    requires words != []
    ensures AllHit(e, d, f, words, EditsOf(typoTolerance), FixedLettersOf(typoTolerance))
            <==> Accepts(e, d, AllClause(f, words, Fuzzy, ToleranceOf(typoTolerance)))
  {
    var c := AllClause(f, words, Fuzzy, ToleranceOf(typoTolerance));
    AllClauseByName(f, words, typoTolerance);
    forall w ensures WordIn(e, w, Tokens(d, f), c.fuzziness, c.prefix)
                     <==> w in Tokens(d, f) || (c.fuzziness > 0 && WordIn(e, w, Tokens(d, f), c.fuzziness, c.prefix)) {
      WordInIff(e, w, Tokens(d, f), c.fuzziness, c.prefix);
    }
  }

  function Tagged(ws: set<Word>, n: nat): set<(nat, Word)> {
    set w | w in ws :: (n, w)
  }

  lemma {:induction false} TaggedCount(ws: set<Word>, n: nat)
    ensures |Tagged(ws, n)| == |ws|
  {
    if ws == {} {
      assert Tagged(ws, n) == {};
    } else {
      var x :| x in ws;
      TaggedCount(ws - {x}, n);
      assert Tagged(ws, n) == Tagged(ws - {x}, n) + {(n, x)};
    }
  }

  /** The words that hit in a field. */
  function HitWords(e: Engine, d: Doc, f: string, words: seq<Word>, edits: nat, prefix: nat): set<Word> {
    set w | w in words && WordHit(e, d, f, w, edits, prefix)
  }

  lemma OneMoreWord(e: Engine, d: Doc, f: string, u: seq<Word>, w: Word, edits: nat, prefix: nat)
    requires w !in u
    ensures |HitWords(e, d, f, u + [w], edits, prefix)|
            == |HitWords(e, d, f, u, edits, prefix)| + if WordHit(e, d, f, w, edits, prefix) then 1 else 0
  {
    var before := HitWords(e, d, f, u, edits, prefix);
    assert HitWords(e, d, f, u + [w], edits, prefix)
           == if WordHit(e, d, f, w, edits, prefix) then before + {w} else before;
  }

  lemma {:induction false} RowHits(e: Engine, d: Doc, f: string, u: seq<Word>, typoTolerance: string)
    requires forall i, j :: 0 <= i < j < |u| ==> u[i] != u[j]
    ensures |HitWords(e, d, f, u, EditsOf(typoTolerance), FixedLettersOf(typoTolerance))|
            == Count(e, d, Row(f, u, Fuzzy, ToleranceOf(typoTolerance)))
  {
    if u == [] {
      assert HitWords(e, d, f, u, EditsOf(typoTolerance), FixedLettersOf(typoTolerance)) == {};
    } else {
      var n := |u| - 1;
      RowHits(e, d, f, u[..n], typoTolerance);
      HitIsAccepted(e, d, f, u[n], typoTolerance);
      OneMoreWord(e, d, f, u[..n], u[n], EditsOf(typoTolerance), FixedLettersOf(typoTolerance));
      assert u == u[..n] + [u[n]];
      CountRow(e, d, f, u, ToleranceOf(typoTolerance));
    }
  }

  lemma CountRow(e: Engine, d: Doc, f: string, u: seq<Word>, tol: Tolerance)
    requires u != []
    ensures var n := |u| - 1;
            Count(e, d, Row(f, u, Fuzzy, tol))
            == Count(e, d, Row(f, u[..n], Fuzzy, tol)) + if Accepts(e, d, WordClause(f, u[n], Fuzzy, tol)) then 1 else 0
  {
    assert Row(f, u, Fuzzy, tol)[..|u| - 1] == Row(f, u[..|u| - 1], Fuzzy, tol);
  }

  lemma {:induction false} HitsCount(e: Engine, d: Doc, fields: seq<string>, u: seq<Word>, typoTolerance: string)
    requires forall i, j :: 0 <= i < j < |u| ==> u[i] != u[j]
    ensures |Hits(e, d, fields, u, EditsOf(typoTolerance), FixedLettersOf(typoTolerance))|
            == Count(e, d, AnyWordClauses(fields, u, Fuzzy, ToleranceOf(typoTolerance)))
  {
    var edits, prefix := EditsOf(typoTolerance), FixedLettersOf(typoTolerance);
    var hits := Hits(e, d, fields, u, edits, prefix);
    if fields == [] {
      assert hits == {};
    } else {
      var n := |fields| - 1;
      HitsCount(e, d, fields[..n], u, typoTolerance);
      CountField(e, d, fields, u, Fuzzy, ToleranceOf(typoTolerance));
      RowHits(e, d, fields[n], u, typoTolerance);
      HitsOfLastField(e, d, fields, u, edits, prefix);
    }
  }

  lemma HitsOfLastField(e: Engine, d: Doc, fields: seq<string>, u: seq<Word>, edits: nat, prefix: nat)
    requires fields != []
    ensures var n := |fields| - 1;
            |Hits(e, d, fields, u, edits, prefix)|
            == |Hits(e, d, fields[..n], u, edits, prefix)| + |HitWords(e, d, fields[n], u, edits, prefix)|
  {
    var n: nat := |fields| - 1;
    var before, row := Hits(e, d, fields[..n], u, edits, prefix), HitWords(e, d, fields[n], u, edits, prefix);
    TaggedCount(row, n);
    HitsSplit(e, d, fields[..n], fields[n], u, edits, prefix);
    assert fields == fields[..n] + [fields[n]];
    assert before !! Tagged(row, n);
  }

  lemma HitsSplit(e: Engine, d: Doc, fields: seq<string>, f: string, u: seq<Word>, edits: nat, prefix: nat)
    ensures Hits(e, d, fields + [f], u, edits, prefix)
            == Hits(e, d, fields, u, edits, prefix) + Tagged(HitWords(e, d, f, u, edits, prefix), |fields|)
  {
    var all, before := Hits(e, d, fields + [f], u, edits, prefix), Hits(e, d, fields, u, edits, prefix);
    var tagged := Tagged(HitWords(e, d, f, u, edits, prefix), |fields|);
    forall h ensures h in all <==> h in before || h in tagged {
      var (i, w) := h;
      assert (fields + [f])[|fields|] == f && (i < |fields| ==> (fields + [f])[i] == fields[i]);
    }
  }

  lemma HitsOfUnique(e: Engine, d: Doc, fields: seq<string>, words: seq<Word>, edits: nat, prefix: nat)
    ensures Hits(e, d, fields, words, edits, prefix) == Hits(e, d, fields, Unique(words), edits, prefix)
  {
  }

  lemma FuzzyAnyWordIff(e: Engine, d: Doc, fields: seq<string>, words: seq<Word>, typoTolerance: string)
    requires words != [] && fields != [] && Several(words)
    ensures var n := |set w | w in words|;
            FoundByText(e, d, fields, words, AnyWord, Fuzzy, ToleranceOf(typoTolerance))
            <==> |Hits(e, d, fields, words, EditsOf(typoTolerance), FixedLettersOf(typoTolerance))|
                 >= if n < 3 then 1 else (n + 1) / 2
  {
    SeveralIff(words);
    AnyWordFinds(e, d, fields, words, ToleranceOf(typoTolerance));
    HitsCount(e, d, fields, Unique(words), typoTolerance);
    HitsOfUnique(e, d, fields, words, EditsOf(typoTolerance), FixedLettersOf(typoTolerance));
  }

  lemma FuzzyAllWordsIff(e: Engine, d: Doc, fields: seq<string>, words: seq<Word>, mode: Mode, typoTolerance: string)
    requires words != [] && fields != [] && Several(words) && mode != AnyWord
    ensures FoundByText(e, d, fields, words, mode, Fuzzy, ToleranceOf(typoTolerance))
            <==> exists f :: f in fields && AllHit(e, d, f, words, EditsOf(typoTolerance), FixedLettersOf(typoTolerance))
  {
    var tol := ToleranceOf(typoTolerance);
    SeveralIff(words);
    FuzzyPhraseIsAllWords(fields, words, tol);
    AllWordsQuery(e, d, fields, words, tol);
    forall f ensures AllHit(e, d, f, words, EditsOf(typoTolerance), FixedLettersOf(typoTolerance))
                     <==> Accepts(e, d, AllClause(f, words, Fuzzy, tol)) {
      AllHitIsAccepted(e, d, f, words, typoTolerance);
    }
  }

  lemma SomeHit(e: Engine, d: Doc, fields: seq<string>, u: seq<Word>, typoTolerance: string)
    requires |u| == 1
    ensures Count(e, d, AnyWordClauses(fields, u, Fuzzy, ToleranceOf(typoTolerance))) >= 1
            <==> exists f :: f in fields && WordHit(e, d, f, u[0], EditsOf(typoTolerance), FixedLettersOf(typoTolerance))
  {
    HitsCount(e, d, fields, u, typoTolerance);
    HitsNotEmptyIff(e, d, fields, u, EditsOf(typoTolerance), FixedLettersOf(typoTolerance));
  }

  lemma HitsNotEmptyIff(e: Engine, d: Doc, fields: seq<string>, u: seq<Word>, edits: nat, prefix: nat)
    requires |u| == 1
    ensures |Hits(e, d, fields, u, edits, prefix)| >= 1 <==> exists f :: f in fields && WordHit(e, d, f, u[0], edits, prefix)
  {
    var hits := Hits(e, d, fields, u, edits, prefix);
    if h :| h in hits {
      assert h.1 == u[0] && fields[h.0] in fields;
    } else {
      forall f | f in fields ensures !WordHit(e, d, f, u[0], edits, prefix) {
        var i: nat :| i < |fields| && fields[i] == f;
        assert (i, u[0]) !in hits;
      }
    }
  }

  lemma SomeGram(e: Engine, d: Doc, fields: seq<string>, words: seq<Word>)
    ensures Count(e, d, NgramClauses(fields, words)) >= 1 <==> exists f :: f in fields && GramHit(e, d, f, words)
  {
    var clauses := NgramClauses(fields, words);
    CountPositiveIff(e, d, clauses);
    forall k | 0 <= k < |fields| ensures Accepts(e, d, clauses[k]) <==> GramHit(e, d, fields[k], words) {
    }
    if f :| f in fields && GramHit(e, d, f, words) {
      var k :| 0 <= k < |fields| && fields[k] == f;
      assert Accepts(e, d, clauses[k]);
    }
  }

  lemma FuzzyOneWordIff(e: Engine, d: Doc, fields: seq<string>, words: seq<Word>, mode: Mode, typoTolerance: string)
    requires words != [] && fields != [] && !Several(words)
    ensures FoundByText(e, d, fields, words, mode, Fuzzy, ToleranceOf(typoTolerance))
            <==> exists f :: f in fields
                             && (WordHit(e, d, f, words[0], EditsOf(typoTolerance), FixedLettersOf(typoTolerance))
                                 || (mode != AllWords && GramHit(e, d, f, words)))
  {
    var tol, u := ToleranceOf(typoTolerance), Unique(words);
    SeveralIff(words);
    assert u[0] in words && u[0] == words[0] by {
      var i :| 0 <= i < |words| && words[i] == u[0];
    }
    var clauses := AnyWordClauses(fields, u, Fuzzy, tol);
    var ngrams := if mode != AllWords then NgramClauses(fields, words) else [];
    assert TextQuery(fields, words, mode, Fuzzy, tol).should == clauses + ngrams;
    NoClausesIff(fields, u, Fuzzy, tol);
    CountConcat(e, d, clauses, ngrams);
    SomeHit(e, d, fields, u, typoTolerance);
    SomeGram(e, d, fields, words);
  }

  lemma {:induction false} OtherAnyWord(fields: seq<string>, words: seq<Word>, tol: Tolerance)
    ensures AnyWordClauses(fields, words, OtherMatch, tol) == AnyWordClauses(fields, words, Exact, tol)
  {
    if fields != [] {
      OtherAnyWord(fields[..|fields| - 1], words, tol);
      var f := fields[|fields| - 1];
      assert Row(f, words, OtherMatch, tol) == Row(f, words, Exact, tol);
    }
  }

  lemma OtherQuery(fields: seq<string>, words: seq<Word>, mode: Mode, tol: Tolerance)
    requires words != []
    ensures TextQuery(fields, words, mode, OtherMatch, tol).should == TextQuery(fields, words, mode, Exact, tol).should
    ensures TextQuery(fields, words, mode, OtherMatch, tol).minimum == TextQuery(fields, words, mode, Exact, tol).minimum
  {
    OtherAnyWord(fields, Unique(words), tol);
    OtherFields(fields, words, mode, tol);
  }

  lemma OtherFields(fields: seq<string>, words: seq<Word>, mode: Mode, tol: Tolerance)
    requires words != []
    ensures FieldClauses(fields, words, mode, OtherMatch, tol) == FieldClauses(fields, words, mode, Exact, tol)
  {
  }

  lemma OtherIsExact(e: Engine, d: Doc, fields: seq<string>, words: seq<Word>, mode: Mode, tol: Tolerance)
    requires words != []
    ensures FoundByText(e, d, fields, words, mode, OtherMatch, tol) <==> FoundByText(e, d, fields, words, mode, Exact, tol)
  {
    OtherQuery(fields, words, mode, tol);
  }

  lemma ExactlyWantedIff(e: Engine, d: Doc, fields: seq<string>, words: seq<Word>, searchMode: string, tol: Tolerance)
    requires words != []
    ensures FoundByText(e, d, fields, words, EffectiveMode(searchMode), Exact, tol)
            <==> fields == [] || ExactlyWanted(d, fields, words, searchMode)
  {
    ExactMeaning(e, d, fields, words, EffectiveMode(searchMode), tol);
    SeveralIff(words);
    if !Several(words) {
      forall w | w in words ensures w == words[0] {
      }
      assert forall f :: HasWords(Tokens(d, f), words) <==> words[0] in Tokens(d, f);
      assert HasAnyWord(d, fields, words) <==> HasAllWords(d, fields, words);
    }
  }

  /** The text query compiled from the option names finds exactly what they ask for. */
  lemma TextSearchIff(e: Engine, d: Doc, fields: seq<string>, words: seq<Word>, searchMode: string, matchType: string,
                      typoTolerance: string)
    requires words != []
    ensures FoundByText(e, d, fields, words, EffectiveMode(searchMode), MatchTypeOf(matchType), ToleranceOf(typoTolerance))
            <==> TextWanted(e, d, fields, words, searchMode, matchType, typoTolerance)
  {
    var mode, tol := EffectiveMode(searchMode), ToleranceOf(typoTolerance);
    if matchType != "" && matchType != "fuzzy" {
      ExactlyWantedIff(e, d, fields, words, searchMode, tol);
      OtherIsExact(e, d, fields, words, mode, tol);
    } else if fields == [] {
      NothingAsked(e, d, words, mode, Fuzzy, tol);
    } else if !Several(words) {
      FuzzyOneWordIff(e, d, fields, words, mode, typoTolerance);
    } else if searchMode == "phrase" || searchMode == "all_words" {
      FuzzyAllWordsIff(e, d, fields, words, mode, typoTolerance);
    } else {
      FuzzyAnyWordIff(e, d, fields, words, typoTolerance);
    }
  }

  lemma NothingAsked(e: Engine, d: Doc, words: seq<Word>, mode: Mode, mt: MatchType, tol: Tolerance)
    requires words != []
    ensures FoundByText(e, d, [], words, mode, mt, tol)
  {
  }

  /** The score threshold, by the names of the options. */
  lemma ThresholdByName(fields: seq<string>, words: seq<Word>, searchMode: string, matchType: string, typoTolerance: string)
    requires words != []
    ensures var n := |set w | w in words|;
            TextQuery(fields, words, EffectiveMode(searchMode), MatchTypeOf(matchType), ToleranceOf(typoTolerance)).minScore
            == if matchType == "exact" then 0.5
               else if matchType != "" && matchType != "fuzzy" then 0.0
               else
                 var base := if typoTolerance == "low" then 2.0
                             else if typoTolerance == "" || typoTolerance == "medium" then 1.5
                             else if typoTolerance == "high" then 1.0 else 0.0;
                 if base == 0.0 then 0.0 else if n == 1 then base + 1.0 else if n == 2 then base + 0.5 else base
  {
    SeveralIff(words);
  }

  // ---------------------------------------------------------------- the whole search

  predicate FilterHolds(d: Doc, f: (string, FilterValue)) {
    match f.1
    case Missing => true
    case One(v) => f.0 in d.keywords && v in d.keywords[f.0]
    case Many(vs) => f.0 in d.keywords && exists v :: v in vs && v in d.keywords[f.0]
  }

  lemma {:induction false} FiltersMeaning(e: Engine, d: Doc, filters: seq<(string, FilterValue)>)
    ensures Found(e, d, FilterClauses(filters)) <==> forall k :: 0 <= k < |filters| ==> FilterHolds(d, filters[k])
  {
    if filters != [] {
      var n := |filters| - 1;
      FiltersMeaning(e, d, filters[..n]);
      var f := filters[n];
      var last := match f.1 case Missing => [] case One(v) => [Term(f.0, v)] case Many(vs) => [Terms(f.0, vs)];
      assert FilterClauses(filters) == FilterClauses(filters[..n]) + last;
      FoundConcat(e, d, FilterClauses(filters[..n]), last);
      if last != [] { FoundOne(e, d, last[0]); }
    }
  }

  lemma FoundOne(e: Engine, d: Doc, m: Must)
    ensures Found(e, d, [m]) <==> Selects(e, d, m)
  {
    assert m in [m];
  }

  lemma FoundConcat(e: Engine, d: Doc, a: seq<Must>, b: seq<Must>)
    ensures Found(e, d, a + b) <==> Found(e, d, a) && Found(e, d, b)
  {
    forall m ensures m in a + b <==> m in a || m in b {
    }
    if Found(e, d, a + b) {
      assert forall m :: m in a ==> m in a + b;
      assert forall m :: m in b ==> m in a + b;
    }
  }

  /** A search is refused exactly when the trimmed query is longer than 200; otherwise it finds the
      documents its options want (all, when the query is blank) that are not excluded and satisfy
      every filter that has a value. */
  lemma SearchFindsIff(e: Engine, d: Doc, fields: seq<string>, query: string, o: Options)
    ensures var r := Compiled(fields, query, o);
            && (r == QueryTooLong <==> Utf16Length(Trim(query)) > 200)
            && (r.Ok? ==>
                  (Found(e, d, r.value) <==>
                    && (Trim(query) == [] ||
                        TextWanted(e, d, fields, Words(Trim(query)), o.searchMode, o.matchType, o.typoTolerance))
                    && d.id !in o.excludeIds
                    && forall k :: 0 <= k < |o.filters| ==> FilterHolds(d, o.filters[k])))
  {
    var r := Compiled(fields, query, o);
    if r.Ok? {
      var text, excluded := TextMust(fields, query, o), if o.excludeIds == [] then [] else [ExcludeIds(o.excludeIds)];
      assert r.value == [text] + excluded + FilterClauses(o.filters);
      FoundConcat(e, d, [text] + excluded, FilterClauses(o.filters));
      FoundConcat(e, d, [text], excluded);
      FiltersMeaning(e, d, o.filters);
      TextMustIff(e, d, fields, query, o);
      ExcludedIff(e, d, excluded, o.excludeIds);
    }
  }

  function TextMust(fields: seq<string>, query: string, o: Options): Must {
    if Trim(query) == [] then MatchAll
    else TextQuery(fields, Words(Trim(query)), EffectiveMode(o.searchMode), MatchTypeOf(o.matchType),
                   ToleranceOf(o.typoTolerance))
  }

  lemma TextMustIff(e: Engine, d: Doc, fields: seq<string>, query: string, o: Options)
    ensures Found(e, d, [TextMust(fields, query, o)])
            <==> Trim(query) == []
                 || TextWanted(e, d, fields, Words(Trim(query)), o.searchMode, o.matchType, o.typoTolerance)
  {
    FoundOne(e, d, TextMust(fields, query, o));
    if Trim(query) != [] {
      TextSearchIff(e, d, fields, Words(Trim(query)), o.searchMode, o.matchType, o.typoTolerance);
    }
  }

  lemma ExcludedIff(e: Engine, d: Doc, excluded: seq<Must>, ids: seq<string>)
    requires excluded == if ids == [] then [] else [ExcludeIds(ids)]
    ensures Found(e, d, excluded) <==> d.id !in ids
  {
    if ids != [] { FoundOne(e, d, ExcludeIds(ids)); }
  }
}
