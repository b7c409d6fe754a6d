/** The search query compiler: `search` of infrastructure/elasticsearch/ElasticsearchIndexService.ts
    from the raw query to its must clauses, with smart search off, and what the clauses mean.

    Scores are left out: boosts are not modelled, and a score threshold is recorded but not applied. */
module SearchCompiler {
  import opened JsText

  type Word = string

  datatype Result<+T> = Ok(value: T) | QueryTooLong
  datatype Mode = Phrase | AllWords | AnyWord
  datatype MatchType = Fuzzy | Exact | OtherMatch
  datatype Tolerance = Low | Medium | High | OtherTolerance
  datatype FilterValue = Missing | One(value: string) | Many(values: seq<string>)

  /** Absent strings are empty: the source treats the two alike. */
  datatype Options = Options(
    searchMode: string,
    matchType: string,
    typoTolerance: string,
    excludeIds: seq<string>,
    filters: seq<(string, FilterValue)>)

  datatype Clause =
    | Match(field: string, text: seq<Word>, all: bool, fuzziness: nat, prefix: nat)
    | MatchNgram(field: string, text: seq<Word>)
    | MatchPhrase(field: string, text: seq<Word>)

  /** `Should` is a bool query; a positive `minScore` wraps it in a function_score query. */
  datatype Must =
    | Should(should: seq<Clause>, minimum: nat, minScore: real)
    | MatchAll
    | ExcludeIds(ids: seq<string>)
    | Terms(field: string, values: seq<string>)
    | Term(field: string, value: string)

  // ---------------------------------------------------------------- text

  function WordEnd(s: string): (n: nat)
    ensures n <= |s|
    ensures s != [] && !IsSpace(s[0]) ==> n > 0
  {
    if s == [] || IsSpace(s[0]) then 0 else 1 + WordEnd(s[1..])
  }

  function Words(s: string): (r: seq<Word>)
    ensures s != [] && !IsSpace(s[0]) ==> r != []
    ensures forall k :: 0 <= k < |r| ==> r[k] != []
    decreases |s|
  {
    if s == [] then []
    else if IsSpace(s[0]) then Words(s[1..])
    else
      var n := WordEnd(s);
      [s[..n]] + Words(s[n..])
  }

  predicate Blank(s: string) {
    forall k :: 0 <= k < |s| ==> IsSpace(s[k])
  }

  predicate Solid(s: string) {
    s != [] && forall k :: 0 <= k < |s| ==> !IsSpace(s[k])
  }

  /** What lies before, between and after the words. */
  function Gaps(s: string): (r: seq<string>)
    ensures r != []
    decreases |s|
  {
    if s == [] then [[]]
    else if IsSpace(s[0]) then [[s[0]] + Gaps(s[1..])[0]] + Gaps(s[1..])[1..]
    else [[]] + Gaps(s[WordEnd(s)..])
  }

  function Join(gaps: seq<string>, words: seq<Word>): string
    requires |gaps| == |words| + 1
  {
    if words == [] then gaps[0] else gaps[0] + words[0] + Join(gaps[1..], words[1..])
  }

  lemma {:induction false} WordEndMeaning(s: string)
    ensures forall k :: 0 <= k < WordEnd(s) ==> !IsSpace(s[k])
    ensures WordEnd(s) < |s| ==> IsSpace(s[WordEnd(s)])
  {
    if s != [] && !IsSpace(s[0]) {
      WordEndMeaning(s[1..]);
      assert forall k :: 0 < k < |s| ==> s[k] == s[1..][k - 1];
    }
  }

  /** The words are the maximal runs of non-space characters of `s`, all of them and in order: put together
      with the gaps around them, which are blank and between two words not empty, they are `s`. */
  predicate AreRuns(s: string, words: seq<Word>, gaps: seq<string>) {
    && |gaps| == |words| + 1 && Join(gaps, words) == s
    && (forall k :: 0 <= k < |words| ==> Solid(words[k]))
    && (forall k :: 0 <= k < |gaps| ==> Blank(gaps[k]))
    && forall k :: 0 < k < |words| ==> gaps[k] != []
  }

  lemma {:induction false} WordsAreTheRuns(s: string)
    ensures AreRuns(s, Words(s), Gaps(s))
    decreases |s|
  {
    if s != [] {
      if IsSpace(s[0]) {
        WordsAreTheRuns(s[1..]);
        RunsAfterBlank(s, s[1..]);
      } else {
        WordsAreTheRuns(s[WordEnd(s)..]);
        RunsAfterWord(s, s[..WordEnd(s)], s[WordEnd(s)..]);
      }
    }
  }

  lemma RunsAfterBlank(s: string, rest: string)
    requires s != [] && IsSpace(s[0]) && rest == s[1..] && AreRuns(rest, Words(rest), Gaps(rest))
    ensures AreRuns(s, Words(s), Gaps(s))
  {
    BlankBefore(s[0], rest, Words(rest), Gaps(rest));
    assert [s[0]] + rest == s;
  }

  lemma RunsAfterWord(s: string, w: Word, rest: string)
    requires s != [] && !IsSpace(s[0]) && w == s[..WordEnd(s)] && rest == s[WordEnd(s)..]
    requires AreRuns(rest, Words(rest), Gaps(rest))
    ensures AreRuns(s, Words(s), Gaps(s))
  {
    WordEndMeaning(s);
    GapFirst(rest);
    assert w + rest == s;
    WordBefore(w, rest, Words(rest), Gaps(rest));
  }

  lemma GapFirst(s: string)
    ensures s == [] ==> Words(s) == []
    ensures s != [] && IsSpace(s[0]) ==> Gaps(s)[0] != []
  {
  }

  lemma BlankBefore(c: char, s: string, words: seq<Word>, gaps: seq<string>)
    requires AreRuns(s, words, gaps) && IsSpace(c)
    ensures AreRuns([c] + s, words, [[c] + gaps[0]] + gaps[1..])
  {
    var g := [[c] + gaps[0]] + gaps[1..];
    assert g[1..] == gaps[1..] && forall k :: 0 < k < |g| ==> g[k] == gaps[k];
    if words != [] {
      var rest := Join(gaps[1..], words[1..]);
      assert [c] + gaps[0] + words[0] + rest == [c] + (gaps[0] + words[0] + rest);
    }
  }

  lemma WordBefore(w: Word, s: string, words: seq<Word>, gaps: seq<string>)
    requires AreRuns(s, words, gaps) && Solid(w) && (words != [] ==> gaps[0] != [])
    ensures AreRuns(w + s, [w] + words, [[]] + gaps)
  {
    var g, ws := [[]] + gaps, [w] + words;
    assert g[0] == [] && g[1..] == gaps && ws[0] == w && ws[1..] == words;
    assert forall k :: 0 < k < |ws| ==> ws[k] == words[k - 1];
    assert forall k :: 0 < k < |g| ==> g[k] == gaps[k - 1];
    assert g[0] + w == w;
  }

  /** Array.from(new Set(words)): first occurrences, in order. */
  function Unique(words: seq<Word>): (r: seq<Word>)
    ensures forall w :: w in r <==> w in words
    ensures forall i, j :: 0 <= i < j < |r| ==> r[i] != r[j]
    ensures words != [] ==> r != []
  {
    if words == [] then []
    else
      var front := Unique(words[..|words| - 1]);
      var last := words[|words| - 1];
      assert words == words[..|words| - 1] + [last];
      if last in front then front else front + [last]
  }

  function Letters(words: seq<Word>): nat {
    if words == [] then 0 else Letters(words[..|words| - 1]) + Utf16Length(words[|words| - 1])
  }

  function AverageLength(words: seq<Word>): real
    requires words != []
  {
    Letters(words) as real / |words| as real
  }

  function Min(a: nat, b: nat): nat { if a < b then a else b }

  // ---------------------------------------------------------------- compilation

  function EffectiveMode(raw: string): Mode {
    if raw == "phrase" then Phrase else if raw == "all_words" then AllWords else AnyWord
  }

  function MatchTypeOf(raw: string): MatchType {
    if raw == "" || raw == "fuzzy" then Fuzzy else if raw == "exact" then Exact else OtherMatch
  }

  function ToleranceOf(raw: string): Tolerance {
    if raw == "low" then Low else if raw == "" || raw == "medium" then Medium
    else if raw == "high" then High else OtherTolerance
  }

  function Fuzziness(mt: MatchType, tol: Tolerance): nat {
    if mt != Fuzzy then 0
    else match tol case Low => 1 case Medium => 2 case High => 2 case OtherTolerance => 0
  }

  function PrefixLength(mt: MatchType, tol: Tolerance): nat {
    if mt != Fuzzy then 0
    else match tol case Low => 3 case Medium => 2 case High => 1 case OtherTolerance => 0
  }

  function WordClause(field: string, w: Word, mt: MatchType, tol: Tolerance): Clause {
    if mt == Fuzzy && Utf16Length(w) >= 4 then
      Match(field, [w], false, Fuzziness(mt, tol), Min(PrefixLength(mt, tol), Utf16Length(w) / 2))
    else Match(field, [w], false, 0, 0)
  }

  function AllClause(field: string, words: seq<Word>, mt: MatchType, tol: Tolerance): Clause
    requires words != []
  {
    var average := AverageLength(Unique(words));
    if mt == Fuzzy && average >= 4.0 then
      Match(field, words, true, Fuzziness(mt, tol), Min(PrefixLength(mt, tol), (average / 2.0).Floor))
    else Match(field, words, true, 0, 0)
  }

  function Row(field: string, words: seq<Word>, mt: MatchType, tol: Tolerance): (r: seq<Clause>)
    ensures |r| == |words|
    ensures forall k :: 0 <= k < |r| ==> r[k] == WordClause(field, words[k], mt, tol)
  {
    seq(|words|, k requires 0 <= k < |words| => WordClause(field, words[k], mt, tol))
  }

  function AnyWordClauses(fields: seq<string>, unique: seq<Word>, mt: MatchType, tol: Tolerance): seq<Clause> {
    if fields == [] then []
    else AnyWordClauses(fields[..|fields| - 1], unique, mt, tol) + Row(fields[|fields| - 1], unique, mt, tol)
  }

  function FieldClause(field: string, words: seq<Word>, mode: Mode, mt: MatchType, tol: Tolerance): Clause
    requires words != []
  {
    if mode == Phrase && mt != Fuzzy then MatchPhrase(field, words) else AllClause(field, words, mt, tol)
  }

  function FieldClauses(fields: seq<string>, words: seq<Word>, mode: Mode, mt: MatchType,
                        tol: Tolerance): (r: seq<Clause>)
    requires words != []
    ensures |r| == |fields|
    ensures forall k :: 0 <= k < |r| ==> r[k] == FieldClause(fields[k], words, mode, mt, tol)
  {
    seq(|fields|, k requires 0 <= k < |fields| => FieldClause(fields[k], words, mode, mt, tol))
  }

  function NgramClauses(fields: seq<string>, words: seq<Word>): (r: seq<Clause>)
    ensures |r| == |fields|
    ensures forall k :: 0 <= k < |r| ==> r[k] == MatchNgram(fields[k], words)
  {
    seq(|fields|, k requires 0 <= k < |fields| => MatchNgram(fields[k], words))
  }

  function MinimumShouldMatch(mode: Mode, mt: MatchType, wordCount: nat): nat {
    if mode == AnyWord && mt == Fuzzy && wordCount > 2 then (wordCount + 1) / 2 else 1
  }

  function MinScore(mt: MatchType, tol: Tolerance, wordCount: nat): real {
    match mt
    case OtherMatch => 0.0
    case Exact => 0.5
    case Fuzzy =>
      match tol
      case Low => if wordCount == 1 then 3.0 else if wordCount == 2 then 2.5 else 2.0
      case Medium => if wordCount == 1 then 2.5 else if wordCount == 2 then 2.0 else 1.5
      case High => if wordCount == 1 then 2.0 else if wordCount == 2 then 1.5 else 1.0
      case OtherTolerance => 0.0
  }

  /** One distinct word is searched as any_word whatever the mode. */
  function NormalizedMode(mode: Mode, words: seq<Word>): Mode {
    if |Unique(words)| == 1 then AnyWord else mode
  }

  function TextQuery(fields: seq<string>, words: seq<Word>, mode: Mode, mt: MatchType, tol: Tolerance): Must
    requires words != []
  {
    var unique := Unique(words);
    var clauses := if NormalizedMode(mode, words) == AnyWord then AnyWordClauses(fields, unique, mt, tol)
                   else FieldClauses(fields, words, mode, mt, tol);
    var ngrams := if mt == Fuzzy && |unique| == 1 && mode != AllWords then NgramClauses(fields, words) else [];
    Should(clauses + ngrams, MinimumShouldMatch(mode, mt, |unique|), MinScore(mt, tol, |unique|))
  }

  function FilterClauses(filters: seq<(string, FilterValue)>): seq<Must> {
    if filters == [] then []
    else
      var f := filters[|filters| - 1];
      FilterClauses(filters[..|filters| - 1]) +
      match f.1
      case Missing => []
      case One(v) => [Term(f.0, v)]
      case Many(vs) => [Terms(f.0, vs)]
  }

  function Compiled(fields: seq<string>, query: string, o: Options): Result<seq<Must>> {
    var trimmed := Trim(query);
    if Utf16Length(trimmed) > 200 then QueryTooLong
    else
      Ok((if trimmed == [] then [MatchAll]
          else [TextQuery(fields, Words(trimmed), EffectiveMode(o.searchMode), MatchTypeOf(o.matchType),
                          ToleranceOf(o.typoTolerance))])
         + (if o.excludeIds == [] then [] else [ExcludeIds(o.excludeIds)])
         + FilterClauses(o.filters))
  }

  class ElasticsearchIndexService {
    method Search(searchFields: seq<string>, query: string, o: Options) returns (r: Result<seq<Must>>)
      ensures r == Compiled(searchFields, query, o)
    {
      var mustClauses: seq<Must> := [];
      var trimmedQuery := Trim(query);
      if trimmedQuery != [] {
        if Utf16Length(trimmedQuery) > 200 { return QueryTooLong; }
        var text := CompileText(searchFields, Words(trimmedQuery), EffectiveMode(o.searchMode),
                                MatchTypeOf(o.matchType), ToleranceOf(o.typoTolerance));
        mustClauses := mustClauses + [text];
      } else {
        mustClauses := mustClauses + [MatchAll];
      }
      if |o.excludeIds| > 0 {
        mustClauses := mustClauses + [ExcludeIds(o.excludeIds)];
      }
      assert mustClauses == (if trimmedQuery == [] then [MatchAll]
                       else [TextQuery(searchFields, Words(trimmedQuery), EffectiveMode(o.searchMode),
                                       MatchTypeOf(o.matchType), ToleranceOf(o.typoTolerance))])
                      + (if o.excludeIds == [] then [] else [ExcludeIds(o.excludeIds)]);
      var filterClauses := CompileFilters(o.filters);
      r := Ok(mustClauses + filterClauses);
    }

    method CompileFilters(filters: seq<(string, FilterValue)>) returns (clauses: seq<Must>)
      ensures clauses == FilterClauses(filters)
    {
      clauses := [];
      for i := 0 to |filters|
        invariant clauses == FilterClauses(filters[..i])
      {
        var (key, value) := filters[i];
        assert filters[..i + 1][..i] == filters[..i];
        match value {
          case Missing =>
          case One(v) => clauses := clauses + [Term(key, v)];
          case Many(vs) => clauses := clauses + [Terms(key, vs)];
        }
      }
      assert filters[..|filters|] == filters;
    }

    method CompileText(searchFields: seq<string>, words: seq<Word>, effectiveMode: Mode, matchType: MatchType,
                       typoTolerance: Tolerance) returns (q: Must)
      requires words != []
      ensures q == TextQuery(searchFields, words, effectiveMode, matchType, typoTolerance)
    {
      var uniqueWords := Unique(words);
      var wordCount := |uniqueWords|;
      var normalizedMode := if wordCount == 1 then AnyWord else effectiveMode;
      var fuzziness, prefixLength, useNgram := 0, 0, false;
      if matchType == Fuzzy {
        match typoTolerance {
          case Low => fuzziness, prefixLength := 1, 3;
          case Medium => fuzziness, prefixLength := 2, 2;
          case High => fuzziness, prefixLength := 2, 1;
          case OtherTolerance =>
        }
        useNgram := true;
      }
      var queryClauses: seq<Clause> := [];
      if normalizedMode == AnyWord {
        queryClauses := CompileAnyWord(searchFields, uniqueWords, matchType, typoTolerance, fuzziness, prefixLength);
      } else {
        queryClauses := CompileFields(searchFields, words, uniqueWords, normalizedMode, matchType, typoTolerance,
                                      fuzziness, prefixLength);
      }
      var ngramQueryClauses: seq<Clause> := [];
      if useNgram && wordCount == 1 {
        ngramQueryClauses := CompileNgrams(searchFields, words);
      }
      var minScore := MinScore(matchType, typoTolerance, wordCount);
      if effectiveMode == AllWords {
        q := Should(queryClauses, 1, minScore);
        assert queryClauses + [] == queryClauses;
      } else {
        var minimumShouldMatch := 1;
        if effectiveMode == AnyWord && matchType == Fuzzy && wordCount > 2 {
          minimumShouldMatch := (wordCount + 1) / 2;
        }
        q := Should(queryClauses + ngramQueryClauses, minimumShouldMatch, minScore);
      }
    }

    /** The phrase and all_words branches. */
    method CompileFields(searchFields: seq<string>, words: seq<Word>, uniqueWords: seq<Word>, mode: Mode,
                         matchType: MatchType, ghost tolerance: Tolerance, fuzziness: nat, prefixLength: nat)
      returns (clauses: seq<Clause>)
      requires words != [] && uniqueWords == Unique(words) && mode != AnyWord
      requires fuzziness == Fuzziness(matchType, tolerance) && prefixLength == PrefixLength(matchType, tolerance)
      ensures clauses == FieldClauses(searchFields, words, mode, matchType, tolerance)
    {
      var average := AverageLength(uniqueWords);
      clauses := [];
      for i := 0 to |searchFields|
        invariant |clauses| == i
        invariant forall k :: 0 <= k < i ==>
                    clauses[k] == FieldClause(searchFields[k], words, mode, matchType, tolerance)
      {
        var clause := CompileField(searchFields[i], words, average, mode, matchType, tolerance, fuzziness, prefixLength);
        clauses := clauses + [clause];
      }
    }

    method CompileField(field: string, words: seq<Word>, average: real, mode: Mode, matchType: MatchType,
                        ghost tolerance: Tolerance, fuzziness: nat, prefixLength: nat) returns (clause: Clause)
      requires words != [] && average == AverageLength(Unique(words)) && mode != AnyWord
      requires fuzziness == Fuzziness(matchType, tolerance) && prefixLength == PrefixLength(matchType, tolerance)
      ensures clause == FieldClause(field, words, mode, matchType, tolerance)
    {
      clause := MatchPhrase(field, words);
      if mode == AllWords || matchType == Fuzzy {
        clause := Match(field, words, true, 0, 0);
        if matchType == Fuzzy && average >= 4.0 {
          clause := clause.(fuzziness := fuzziness, prefix := Min(prefixLength, (average / 2.0).Floor));
        }
      }
    }

    method CompileNgrams(searchFields: seq<string>, words: seq<Word>) returns (clauses: seq<Clause>)
      ensures clauses == NgramClauses(searchFields, words)
    {
      clauses := [];
      for i := 0 to |searchFields|
        invariant |clauses| == i
        invariant forall k :: 0 <= k < i ==> clauses[k] == MatchNgram(searchFields[k], words)
      {
        clauses := clauses + [MatchNgram(searchFields[i], words)];
      }
    }

    static method CompileWord(field: string, word: Word, matchType: MatchType,
                              ghost tolerance: Tolerance, fuzziness: nat, prefixLength: nat) returns (clause: Clause)
      requires fuzziness == Fuzziness(matchType, tolerance) && prefixLength == PrefixLength(matchType, tolerance)
      ensures clause == WordClause(field, word, matchType, tolerance)
    {
      clause := Match(field, [word], false, 0, 0);
      if matchType == Fuzzy && Utf16Length(word) >= 4 {
        clause := clause.(fuzziness := fuzziness, prefix := Min(prefixLength, Utf16Length(word) / 2));
      }
    }

    method CompileAnyWord(searchFields: seq<string>, uniqueWords: seq<Word>, matchType: MatchType,
                          ghost tolerance: Tolerance, fuzziness: nat, prefixLength: nat) returns (clauses: seq<Clause>)
      requires fuzziness == Fuzziness(matchType, tolerance) && prefixLength == PrefixLength(matchType, tolerance)
      ensures clauses == AnyWordClauses(searchFields, uniqueWords, matchType, tolerance)
    {
      clauses := [];
      for i := 0 to |searchFields|
        invariant clauses == AnyWordClauses(searchFields[..i], uniqueWords, matchType, tolerance)
      {
        ghost var before, row := clauses, [];
        for j := 0 to |uniqueWords|
          invariant clauses == before + row && |row| == j
          invariant forall k :: 0 <= k < j ==>
                      row[k] == WordClause(searchFields[i], uniqueWords[k], matchType, tolerance)
        {
          var clause := CompileWord(searchFields[i], uniqueWords[j], matchType, tolerance, fuzziness, prefixLength);
          clauses := clauses + [clause];
          row := row + [clause];
        }
        assert row == Row(searchFields[i], uniqueWords, matchType, tolerance);
        assert searchFields[..i + 1][..i] == searchFields[..i];
      }
      assert searchFields[..|searchFields|] == searchFields;
    }
  }
}
