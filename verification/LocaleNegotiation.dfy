/** Accept-Language negotiation: `normalizeLocale` of types/i18n.ts. */
module LocaleNegotiation {
  import opened Optional
  import opened JsText
  import opened StableSort

  /** A quality of None is NaN. */
  datatype Entry = Entry(code: string, quality: Option<real>)

  const FALLBACK: string := "en"

  predicate Supported(code: string) {
    code == "en" || code == "tr" || code == "de"
  }

  // ---------------------------------------------------------------- parsing one language range

  predicate IsDigit(c: char) {
    '0' <= c <= '9'
  }

  predicate Digital(s: string) {
    forall k :: 0 <= k < |s| ==> IsDigit(s[k])
  }

  predicate IsNumeral(c: char) {
    IsDigit(c) || c == '.'
  }

  function Leading(s: string, p: char -> bool): (r: string)
    ensures |r| <= |s|
    ensures forall k :: 0 <= k < |r| ==> p(r[k])
  {
    if s == [] || !p(s[0]) then [] else [s[0]] + Leading(s[1..], p)
  }

  /** The capture of /;q=([0-9.]+)/. */
  function QualityText(s: string): Option<string> {
    if |s| < 4 then None
    else if s[..3] == ";q=" && IsNumeral(s[3]) then Some(Leading(s[3..], IsNumeral))
    else QualityText(s[1..])
  }

  function Digits(s: string): real
    requires Digital(s)
  {
    if s == [] then 0.0 else Digits(s[..|s| - 1]) * 10.0 + (s[|s| - 1] as int - 48) as real
  }

  function Fraction(s: string): real
    requires Digital(s)
  {
    if s == [] then 0.0 else ((s[0] as int - 48) as real + Fraction(s[1..])) / 10.0
  }

  /** The digits after a leading dot. */
  function AfterDot(s: string): (r: string)
    ensures Digital(r)
  {
    if s != [] && s[0] == '.' then Leading(s[1..], IsDigit) else []
  }

  /** parseFloat on a run of digits and dots; None is NaN. */
  function ParseFloat(s: string): Option<real> {
    var whole := Leading(s, IsDigit);
    var part := AfterDot(s[|whole|..]);
    if whole == [] && part == [] then None else Some(Digits(whole) + Fraction(part))
  }

  function Quality(lang: string): Option<real> {
    var text := QualityText(lang);
    if text.Some? then ParseFloat(text.value) else Some(1.0)
  }

  function Code(lang: string): string {
    LowerCase(Trim(Split(Split(lang, ';')[0], '-')[0]))
  }

  /** Ranges with an empty code are filtered out before the sort. */
  function Parse(langs: seq<string>): seq<Entry> {
    if langs == [] then []
    else
      var code := Code(langs[0]);
      (if code != [] then [Entry(code, Quality(langs[0]))] else []) + Parse(langs[1..])
  }

  function Entries(raw: string): seq<Entry> {
    Parse(Split(raw, ','))
  }

  predicate Numeric(entries: seq<Entry>) {
    forall k :: 0 <= k < |entries| ==> entries[k].quality.Some?
  }

  /** The qualities that are numbers are all the same. */
  predicate Level(entries: seq<Entry>) {
    forall i, j :: 0 <= i < |entries| && 0 <= j < |entries| && entries[i].quality.Some? && entries[j].quality.Some?
                   ==> entries[i].quality == entries[j].quality
  }

  function QualityOf(e: Entry): real {
    if e.quality.Some? then e.quality.value else 0.0
  }

  /** The sort by descending difference. A difference with NaN counts as zero, so entries on a level stay
      where they are; different numbers besides a NaN are no order at all, and the sort's outcome,
      `order`, is left open. */
  function Sorted(entries: seq<Entry>, order: seq<Entry>): seq<Entry> {
    if Numeric(entries) then SortDescending(entries, QualityOf) else if Level(entries) then entries else order
  }

  predicate Permutes(raw: string, order: seq<Entry>) {
    multiset(order) == multiset(Entries(raw))
  }

  function FirstSupported(entries: seq<Entry>): Option<Entry> {
    if entries == [] then None
    else if Supported(entries[0].code) then Some(entries[0])
    else FirstSupported(entries[1..])
  }

  /** The first supported of the ranked languages, or else the header itself, or else English. */
  function Chosen(raw: string, ranked: seq<Entry>): string {
    var first := FirstSupported(ranked);
    if first.Some? then first.value.code else if Supported(raw) then raw else FALLBACK
  }

  function Answered(raw: string, order: seq<Entry>): string {
    Chosen(raw, Sorted(Entries(raw), order))
  }

  method NormalizeLocale(raw: Option<string>, order: seq<Entry>) returns (locale: string)
    requires raw.Some? && !Numeric(Entries(raw.value)) && !Level(Entries(raw.value)) ==> Permutes(raw.value, order)
    ensures locale == if raw.None? || raw.value == [] then FALLBACK else Answered(raw.value, order)
  {
    if raw.None? || raw.value == [] { return FALLBACK; }
    var languages := Sorted(Entries(raw.value), order);
    for k := 0 to |languages|
      invariant FirstSupported(languages[k..]) == FirstSupported(languages)
    {
      if Supported(languages[k].code) { return languages[k].code; }
      assert languages[k..][1..] == languages[k + 1..];
    }
    if Supported(raw.value) { return raw.value; }
    return FALLBACK;
  }

  // ---------------------------------------------------------------- what is negotiated

  /** Entry `i` is supported, none has a greater quality, and no earlier one as great a quality. */
  predicate Preferred(entries: seq<Entry>, i: nat) {
    && i < |entries|
    && Supported(entries[i].code)
    && (forall j :: 0 <= j < |entries| && Supported(entries[j].code) ==> QualityOf(entries[j]) <= QualityOf(entries[i]))
    && forall j :: 0 <= j < i && Supported(entries[j].code) ==> QualityOf(entries[j]) < QualityOf(entries[i])
  }

  /** The negotiated entry, computed without sorting. */
  function Best(entries: seq<Entry>): Option<Entry> {
    if entries == [] then None
    else
      var rest := Best(entries[1..]);
      if Supported(entries[0].code) && (rest.None? || QualityOf(entries[0]) >= QualityOf(rest.value)) then Some(entries[0])
      else rest
  }

  lemma {:induction false} InsertFirst(x: Entry, s: seq<Entry>)
    requires Descending(s, QualityOf)
    ensures var r := FirstSupported(s);
            FirstSupported(Insert(x, s, QualityOf))
            == if Supported(x.code) && (r.None? || QualityOf(x) >= QualityOf(r.value)) then Some(x) else r
  {
    if s != [] {
      assert Descending(s[1..], QualityOf);
      FirstIsBelow(s);
      if QualityOf(x) >= QualityOf(s[0]) {
        assert Insert(x, s, QualityOf)[1..] == s;
      } else {
        InsertFirst(x, s[1..]);
        assert Insert(x, s, QualityOf)[1..] == Insert(x, s[1..], QualityOf);
      }
    } else {
      assert Insert(x, s, QualityOf) == [x] && [x][1..] == [];
    }
  }

  lemma {:induction false} FirstIsBelow(s: seq<Entry>)
    requires Descending(s, QualityOf) && s != []
    ensures FirstSupported(s).Some? ==> QualityOf(FirstSupported(s).value) <= QualityOf(s[0])
  {
    if !Supported(s[0].code) && |s| > 1 {
      assert Descending(s[1..], QualityOf);
      assert QualityOf(s[0]) >= QualityOf(s[1]);
      FirstIsBelow(s[1..]);
    }
  }

  lemma {:induction false} SortedFirstIsBest(entries: seq<Entry>)
    ensures FirstSupported(SortDescending(entries, QualityOf)) == Best(entries)
  {
    if entries != [] {
      SortedFirstIsBest(entries[1..]);
      SortIsStable(entries[1..], QualityOf, 0.0);
      InsertFirst(entries[0], SortDescending(entries[1..], QualityOf));
    }
  }

  lemma {:induction false} BestIsPreferred(entries: seq<Entry>)
    ensures Best(entries).None? <==> forall j :: 0 <= j < |entries| ==> !Supported(entries[j].code)
    ensures Best(entries).Some? ==> exists i: nat :: Preferred(entries, i) && entries[i] == Best(entries).value
  {
    if entries != [] {
      var rest := entries[1..];
      BestIsPreferred(rest);
      assert forall j :: 0 < j < |entries| ==> entries[j] == rest[j - 1];
      assert forall j :: 0 <= j < |rest| ==> rest[j] == entries[j + 1];
      if Best(rest).Some? {
        var i: nat :| Preferred(rest, i) && rest[i] == Best(rest).value;
        if Supported(entries[0].code) && QualityOf(entries[0]) >= QualityOf(rest[i]) {
          assert Preferred(entries, 0);
        } else {
          assert Preferred(entries, i + 1);
        }
      } else if Supported(entries[0].code) {
        assert Preferred(entries, 0);
      }
    }
  }

  /** Two lower-case letters stand for themselves, and two characters carry no quality value. */
  lemma PlainCode(lang: string)
    requires |lang| == 2 && 'a' <= lang[0] <= 'z' && 'a' <= lang[1] <= 'z'
    ensures Trim(lang) == lang && LowerCase(lang) == lang
    ensures ',' !in lang && ';' !in lang && '-' !in lang
    ensures Code(lang) == lang && Quality(lang) == Some(1.0)
  {
    assert LowerCase(lang) == lang;
    assert TrimLeft(lang) == lang && TrimRight(lang) == lang;
  }

  lemma SupportedRawParses(raw: string)
    requires Supported(raw)
    ensures Split(raw, ',') == [raw] && Entries(raw) == [Entry(raw, Some(1.0))]
  {
    PlainCode(raw);
    ParseOne(raw);
  }

  lemma ParseOne(lang: string)
    requires Code(lang) != []
    ensures Parse([lang]) == [Entry(Code(lang), Quality(lang))]
  {
    var none: seq<string> := [];
    assert [lang][1..] == none;
  }

  predicate Lists(entries: seq<Entry>) {
    exists j :: 0 <= j < |entries| && Supported(entries[j].code)
  }

  /** For every header whose languages have qualities that are numbers the answer is the supported
      language of greatest quality, the earliest on ties, and English when none is supported: the
      direct comparison with the raw header never decides. */
  lemma NegotiatesBestLanguage(raw: string, order: seq<Entry>)
    requires Numeric(Entries(raw))
    ensures var entries := Entries(raw);
            && (forall i: nat :: Preferred(entries, i) ==> Answered(raw, order) == entries[i].code)
            && ((exists i: nat :: Preferred(entries, i)) <==> Lists(entries))
            && (!Lists(entries) ==> Answered(raw, order) == "en")
  {
    var entries := Entries(raw);
    SortedFirstIsBest(entries);
    BestIsPreferred(entries);
    OnePreferred(entries);
    SupportedRawIsListed(raw);
  }

  lemma SupportedRawIsListed(raw: string)
    ensures Supported(raw) ==> Lists(Entries(raw)) && Numeric(Entries(raw))
  {
    if Supported(raw) {
      SupportedRawParses(raw);
      var entries := Entries(raw);
      assert entries == [Entry(raw, Some(1.0))] && Supported(entries[0].code);
    }
  }

  lemma OnePreferred(entries: seq<Entry>)
    ensures forall i: nat, j: nat :: Preferred(entries, i) && Preferred(entries, j) ==> i == j
  {
  }

  /** Each of the three languages alone is its own answer. */
  lemma SupportedIsAnswered(raw: string, order: seq<Entry>)
    requires raw == "en" || raw == "tr" || raw == "de"
    ensures Answered(raw, order) == raw
  {
    SupportedRawParses(raw);
    NegotiatesBestLanguage(raw, order);
    assert Preferred(Entries(raw), 0);
  }

  // ---------------------------------------------------------------- reading a range

  /** ASCII letters are lowered, 32 places up; nothing else changes. */
  lemma LowerCaseMeaning(s: string, k: nat)
    requires k < |s|
    ensures LowerCase(s)[k] as int == s[k] as int + if 65 <= s[k] as int <= 90 then 32 else 0
  {
  }

  lemma {:induction false} TrimBlanks(left: string, core: string, right: string)
    requires forall k :: 0 <= k < |left| ==> IsSpace(left[k])
    requires forall k :: 0 <= k < |right| ==> IsSpace(right[k])
    requires core != [] && !IsSpace(core[0]) && !IsSpace(core[|core| - 1])
    ensures TrimLeft(left + core + right) == core + right && TrimRight(core + right) == core
    ensures Trim(left + core + right) == core
    decreases |left| + |right|
  {
    if left != [] {
      assert (left + core + right)[1..] == left[1..] + core + right;
      TrimBlanks(left[1..], core, right);
    } else {
      assert left + core + right == core + right;
      if right != [] {
        var all := core + right;
        assert all[..|all| - 1] == core + right[..|right| - 1] && all[|all| - 1] == right[|right| - 1];
        assert [] + core + right[..|right| - 1] == core + right[..|right| - 1];
        TrimBlanks([], core, right[..|right| - 1]);
      } else {
        assert core + right == core;
      }
    }
  }

  lemma {:induction false} SplitHead(a: string, separator: char, rest: string)
    requires separator !in a && (rest == [] || rest[0] == separator)
    ensures Split(a + rest, separator)[0] == a
  {
    if rest == [] {
      assert a + rest == a;
    } else {
      assert a + rest == a + [separator] + rest[1..];
      SplitFirst(a, separator, rest[1..]);
    }
  }

  /** The code of a range is its primary subtag in lower case: blanks around it, further subtags and
      parameters fall away. */
  lemma CodeIsPrimarySubtag(left: string, primary: string, right: string, subtags: string, parameters: string)
    requires forall k :: 0 <= k < |left| ==> IsSpace(left[k])
    requires forall k :: 0 <= k < |right| ==> IsSpace(right[k])
    requires primary != [] && !IsSpace(primary[0]) && !IsSpace(primary[|primary| - 1])
    requires '-' !in primary && ';' !in primary && ';' !in subtags
    requires (subtags == [] || subtags[0] == '-') && (parameters == [] || parameters[0] == ';')
    ensures Code(left + primary + right + subtags + parameters) == LowerCase(primary)
  {
    var tag := left + primary + right;
    assert forall k :: 0 <= k < |tag| ==> tag[k] in left || tag[k] in primary || tag[k] in right;
    assert '-' !in tag && ';' !in tag + subtags;
    SplitHead(tag + subtags, ';', parameters);
    SplitHead(tag, '-', subtags);
    TrimBlanks(left, primary, right);
  }

  /** The decimal point moved `n` places to the right. */
  function Shifted(x: real, n: nat): real
    decreases n
  {
    if n == 0 then x else Shifted(10.0 * x, n - 1)
  }

  lemma DigitalParts(s: string, t: string)
    ensures Digital(s + t) <==> Digital(s) && Digital(t)
  {
    assert forall k :: 0 <= k < |s| ==> (s + t)[k] == s[k];
    assert forall k :: 0 <= k < |t| ==> (s + t)[|s| + k] == t[k];
  }

  lemma DigitsAppend(s: string, c: char)
    requires Digital(s) && IsDigit(c)
    ensures Digital(s + [c]) && Digits(s + [c]) == 10.0 * Digits(s) + (c as int - '0' as int) as real
    ensures Digits("") == 0.0
  {
    assert (s + [c])[..|s + [c]| - 1] == s && (s + [c])[|s + [c]| - 1] == c;
  }

  lemma {:induction false} FractionShift(s: string, f: string)
    requires Digital(s) && Digital(f)
    ensures Digital(s + f) && Digits(s + f) == Shifted(Digits(s) + Fraction(f), |f|)
    decreases |f|
  {
    DigitalParts(s, f);
    if f == [] {
      assert s + f == s;
    } else {
      var t, rest := s + [f[0]], f[1..];
      assert t + rest == s + f;
      DigitsAppend(s, f[0]);
      FractionShift(t, rest);
      assert Digits(t) + Fraction(rest) == 10.0 * (Digits(s) + Fraction(f));
    }
  }

  lemma {:induction false} LeadingDigits(s: string, rest: string)
    requires Digital(s)
    requires rest == [] || !IsDigit(rest[0])
    ensures Leading(s + rest, IsDigit) == s
  {
    if s == [] {
      assert s + rest == rest;
    } else {
      assert (s + rest)[1..] == s[1..] + rest;
      LeadingDigits(s[1..], rest);
    }
  }

  lemma AfterDotMeaning(tail: string)
    ensures AfterDot(['.'] + tail) == Leading(tail, IsDigit)
  {
    assert (['.'] + tail)[1..] == tail;
  }

  /** The value of a decimal numeral: moving its point to the end makes it the number of all its digits. A
      second dot ends it. */
  lemma DecimalIsRead(s: string, whole: string, fraction: string, rest: string)
    requires s == whole + (['.'] + (fraction + rest))
    requires Digital(whole) && Digital(fraction) && whole + fraction != [] && (rest == [] || rest[0] == '.')
    ensures Digital(whole + fraction)
    ensures ParseFloat(s).Some? && Shifted(ParseFloat(s).value, |fraction|) == Digits(whole + fraction)
  {
    FractionShift(whole, fraction);
    LeadingDigits(whole, ['.'] + (fraction + rest));
    LeadingDigits(fraction, rest);
    assert s[|whole|..] == ['.'] + (fraction + rest);
    AfterDotMeaning(fraction + rest);
  }

  // ---------------------------------------------------------------- quality zero

  lemma {:induction false} DigitsNotNegative(s: string)
    requires Digital(s)
    ensures Digits(s) >= 0.0
  {
    if s != [] {
      assert IsDigit(s[|s| - 1]);
      DigitsNotNegative(s[..|s| - 1]);
    }
  }

  lemma {:induction false} FractionNotNegative(s: string)
    requires Digital(s)
    ensures Fraction(s) >= 0.0
  {
    if s != [] {
      assert IsDigit(s[0]);
      FractionNotNegative(s[1..]);
    }
  }

  lemma QualityNotNegative(lang: string)
    ensures Quality(lang).Some? ==> Quality(lang).value >= 0.0
  {
    var text := QualityText(lang);
    if text.Some? {
      var whole := Leading(text.value, IsDigit);
      DigitsNotNegative(whole);
      FractionNotNegative(AfterDot(text.value[|whole|..]));
    }
  }

  lemma {:induction false} ParsedNotNegative(langs: seq<string>)
    ensures forall e :: e in Parse(langs) ==> QualityOf(e) >= 0.0
  {
    if langs != [] {
      QualityNotNegative(langs[0]);
      ParsedNotNegative(langs[1..]);
    }
  }

  lemma EntriesNotNegative(raw: string)
    ensures forall j :: 0 <= j < |Entries(raw)| ==> QualityOf(Entries(raw)[j]) >= 0.0
  {
    ParsedNotNegative(Split(raw, ','));
    assert forall j :: 0 <= j < |Entries(raw)| ==> Entries(raw)[j] in Entries(raw);
  }

  /** The header lists the range, and only with quality zero. */
  predicate OnlyZero(entries: seq<Entry>, code: string) {
    && Listed(entries, code)
    && forall j :: 0 <= j < |entries| && entries[j].code == code ==> entries[j].quality == Some(0.0)
  }

  predicate Listed(entries: seq<Entry>, code: string) {
    exists j :: 0 <= j < |entries| && entries[j].code == code
  }

  /** The language is not acceptable: it is listed with quality zero only or, not being listed, falls under
      a wildcard that is (RFC 9110, sections 12.4.2 and 12.5.4). Ranges count as the code cuts them, by
      their primary subtag. */
  predicate Refused(entries: seq<Entry>, code: string) {
    OnlyZero(entries, if Listed(entries, code) then code else "*")
  }

  predicate ListsAcceptable(entries: seq<Entry>) {
    exists j :: 0 <= j < |entries| && Supported(entries[j].code) && QualityOf(entries[j]) > 0.0
  }

  function FirstListed(entries: seq<Entry>): string {
    match FirstSupported(entries) case Some(e) => e.code case None => FALLBACK
  }

  /** The code ranks quality zero last instead of excluding it, and knows no wildcard. So the chosen entry
      has a positive quality exactly when some supported entry has. The answer is a language the header
      refuses exactly when it lists supported languages and refuses them all, or lists none and refuses
      English through the wildcard; and a refused language is the answer exactly when no supported
      entry has a positive quality and it is the first supported one listed, or English if none is. */
  lemma ZeroQualityIsChosenIff(raw: string, order: seq<Entry>)
    requires Numeric(Entries(raw))
    ensures var entries := Entries(raw);
            && (forall i: nat :: Preferred(entries, i) ==> (QualityOf(entries[i]) > 0.0 <==> ListsAcceptable(entries)))
            && (Refused(entries, Answered(raw, order))
                <==> if Lists(entries) then !ListsAcceptable(entries) else OnlyZero(entries, "*"))
            && (forall code :: Supported(code) && Refused(entries, code) ==>
                  (Answered(raw, order) == code <==> !ListsAcceptable(entries) && FirstListed(entries) == code))
  {
    var entries := Entries(raw);
    NegotiatesBestLanguage(raw, order);
    EntriesNotNegative(raw);
    if Lists(entries) {
      var i: nat :| Preferred(entries, i);
      PreferredIsZeroIff(entries, i);
      OnePreferred(entries);
    } else {
      NothingListed(entries);
    }
  }

  lemma PreferredIsZeroIff(entries: seq<Entry>, i: nat)
    requires Numeric(entries) && Preferred(entries, i)
    requires forall j :: 0 <= j < |entries| ==> QualityOf(entries[j]) >= 0.0
    ensures QualityOf(entries[i]) > 0.0 <==> ListsAcceptable(entries)
    ensures Refused(entries, entries[i].code) <==> !ListsAcceptable(entries)
    ensures !ListsAcceptable(entries) ==> FirstListed(entries) == entries[i].code
  {
    assert Listed(entries, entries[i].code);
    if !ListsAcceptable(entries) {
      FirstSupportedAt(entries, i);
    }
  }

  lemma NothingListed(entries: seq<Entry>)
    requires !Lists(entries)
    ensures !ListsAcceptable(entries) && FirstListed(entries) == "en" && !Listed(entries, "en")
  {
    FirstSupportedIsListed(entries);
    assert forall e :: e in entries ==> !Supported(e.code);
    assert Supported("en");
  }

  lemma {:induction false} FirstSupportedAt(entries: seq<Entry>, i: nat)
    requires i < |entries| && Supported(entries[i].code) && forall j :: 0 <= j < i ==> !Supported(entries[j].code)
    ensures FirstSupported(entries) == Some(entries[i])
  {
    if i > 0 {
      assert forall j :: 0 <= j < i - 1 ==> entries[1..][j] == entries[j + 1];
      FirstSupportedAt(entries[1..], i - 1);
    }
  }

  lemma {:induction false} FirstSupportedIsListed(s: seq<Entry>)
    ensures FirstSupported(s).Some? ==> FirstSupported(s).value in s && Supported(FirstSupported(s).value.code)
    ensures FirstSupported(s).None? <==> forall e :: e in s ==> !Supported(e.code)
  {
    if s != [] {
      FirstSupportedIsListed(s[1..]);
      assert s == [s[0]] + s[1..];
    }
  }

  /** The failing cases: alone, a language of quality zero is chosen ... */
  lemma ZeroQualityIsChosen(raw: string, order: seq<Entry>)
    requires raw == "tr;q=0"
    ensures Answered(raw, order) == "tr" && Refused(Entries(raw), "tr")
  {
    PlainCode("tr");
    ZeroAlone(raw, "tr", order);
  }

  /** ... and a wildcard of quality zero leaves English chosen. */
  lemma ZeroWildcardIsIgnored(raw: string, order: seq<Entry>)
    requires raw == "*;q=0"
    ensures Answered(raw, order) == "en" && Refused(Entries(raw), "en")
  {
    assert TrimLeft("*") == "*" && TrimRight("*") == "*" && LowerCase("*") == "*";
    ZeroAlone(raw, "*", order);
  }

  lemma ZeroAlone(raw: string, code: string, order: seq<Entry>)
    requires Simple(code) && raw == code + ";q=0" && (Supported(code) || code == "*")
    ensures Answered(raw, order) == (if Supported(code) then code else "en")
            && Refused(Entries(raw), Answered(raw, order))
  {
    ZeroRange(code);
    OneZeroEntry(raw, order, code);
  }

  lemma OneZeroEntry(raw: string, order: seq<Entry>, code: string)
    requires Entries(raw) == [Entry(code, Some(0.0))] && (Supported(code) || code == "*")
    ensures Answered(raw, order) == (if Supported(code) then code else "en")
            && Refused(Entries(raw), Answered(raw, order))
  {
    var entries := Entries(raw);
    assert entries[0].code == code && Listed(entries, code);
    NegotiatesBestLanguage(raw, order);
    assert Preferred(entries, 0) <==> Supported(code);
    assert !Supported(code) ==> !Lists(entries) && !Listed(entries, "en");
  }

  /** A code that the parse leaves as it is. */
  predicate Simple(code: string) {
    code != [] && Trim(code) == code && LowerCase(code) == code && ',' !in code && ';' !in code && '-' !in code
  }

  lemma WeightedRange(code: string, weight: string)
    requires Simple(code) && weight != [] && weight[0] == ';'
    ensures Parse([code + weight]) == [Entry(code, Quality(weight))]
  {
    var lang := code + weight;
    assert lang == code + [';'] + weight[1..];
    SplitFirst(code, ';', weight[1..]);
    assert Code(lang) == code;
    WeightAfterCode(code, weight);
    ParseOne(lang);
  }

  lemma ZeroRange(code: string)
    requires Simple(code)
    ensures Entries(code + ";q=0") == [Entry(code, Some(0.0))]
  {
    assert ',' !in code + ";q=0";
    WeightedRange(code, ";q=0");
    ZeroQuality();
  }

  lemma ZeroQuality()
    ensures Quality(";q=0") == Some(0.0)
  {
    var weight := ";q=0";
    assert weight[..3] == ";q=" && weight[3..] == "0" && "0"[1..] == "";
    assert Leading("0", IsNumeral) == "0" && Leading("0", IsDigit) == "0";
    assert QualityText(weight) == Some("0");
    assert "0"[..0] == "" && Digits("0") == Digits("") * 10.0 + 0.0;
  }

  // ---------------------------------------------------------------- weights as written

  predicate IsBlank(c: char) {
    c == ' ' || c == '\t'
  }

  lemma {:induction false} NoWeightWithoutSemicolon(s: string)
    requires ';' !in s
    ensures QualityText(s) == None
  {
    if |s| >= 4 {
      assert s[..3][0] == s[0];
      NoWeightWithoutSemicolon(s[1..]);
    }
  }

  lemma {:induction false} WeightAfterCode(code: string, rest: string)
    requires ';' !in code
    ensures QualityText(code + rest) == QualityText(rest)
  {
    if code == [] {
      assert code + rest == rest;
    } else {
      assert (code + rest)[1..] == code[1..] + rest;
      WeightAfterCode(code[1..], rest);
      if |code + rest| >= 4 { assert (code + rest)[..3][0] == code[0]; }
    }
  }

  lemma {:induction false} LeadingAll(s: string)
    requires forall k :: 0 <= k < |s| ==> IsNumeral(s[k])
    ensures Leading(s, IsNumeral) == s
  {
    if s != [] {
      LeadingAll(s[1..]);
    }
  }

  /** A weight may be written with blanks after the semicolon and with either case of its letter (RFC 9110,
      section 12.4.2). The code reads it exactly when there are no blanks and the letter is lower case;
      otherwise the language counts as quality 1, which is right only if that is what it says. */
  lemma WeightIsReadIff(code: string, blanks: string, letter: char, digits: string)
    requires ';' !in code && (letter == 'q' || letter == 'Q') && digits != [] && ParseFloat(digits).Some?
    requires forall k :: 0 <= k < |blanks| ==> IsBlank(blanks[k])
    requires forall k :: 0 <= k < |digits| ==> IsNumeral(digits[k])
    ensures var lang := code + ([';'] + (blanks + ([letter, '='] + digits)));
            && Quality(lang) == (if blanks == [] && letter == 'q' then ParseFloat(digits) else Some(1.0))
            && (Quality(lang) == ParseFloat(digits)
                <==> (blanks == [] && letter == 'q') || ParseFloat(digits) == Some(1.0))
  {
    var rest := [letter, '='] + digits;
    WeightAfterCode(code, [';'] + (blanks + rest));
    if blanks == [] && letter == 'q' {
      assert blanks + rest == "q=" + digits;
      WeightRead(blanks + rest, digits);
    } else {
      NoSecondSemicolon(blanks, rest, digits);
      WeightMissed(blanks + rest);
    }
  }

  lemma NoSecondSemicolon(blanks: string, rest: string, digits: string)
    requires |rest| == |digits| + 2 && rest[2..] == digits && rest[0] != ';' && rest[1] != ';'
    requires forall k :: 0 <= k < |blanks| ==> IsBlank(blanks[k])
    requires forall k :: 0 <= k < |digits| ==> IsNumeral(digits[k])
    ensures ';' !in blanks + rest && (blanks + rest)[0] == if blanks == [] then rest[0] else blanks[0]
  {
    assert forall k :: 0 <= k < |digits| ==> rest[k + 2] == digits[k];
    assert ';' !in blanks && ';' !in rest;
  }

  lemma WeightRead(tail: string, digits: string)
    requires tail == "q=" + digits && digits != [] && forall k :: 0 <= k < |digits| ==> IsNumeral(digits[k])
    ensures QualityText([';'] + tail) == Some(digits)
  {
    var weight := [';'] + tail;
    assert weight[..3] == ";q=" && weight[3..] == digits && weight[3] == digits[0];
    LeadingAll(digits);
  }

  lemma WeightMissed(tail: string)
    requires tail != [] && tail[0] != 'q' && ';' !in tail
    ensures QualityText([';'] + tail) == None
  {
    var weight := [';'] + tail;
    assert weight[1..] == tail && weight[1] == tail[0];
    if |weight| >= 4 { assert weight[..3][1] == tail[0]; }
    NoWeightWithoutSemicolon(tail);
  }

  // ---------------------------------------------------------------- qualities that are no numbers

  /** While the qualities that are numbers are all the same, the answer is the first supported language
      listed, and English if there is none. */
  lemma LevelKeepsOrder(raw: string, order: seq<Entry>)
    requires Level(Entries(raw))
    ensures Answered(raw, order) == FirstListed(Entries(raw))
  {
    var entries := Entries(raw);
    FirstSupportedIsListed(entries);
    SupportedRawIsListed(raw);
    if Numeric(entries) {
      NegotiatesBestLanguage(raw, order);
      if Lists(entries) {
        var i: nat :| Preferred(entries, i);
        forall j | 0 <= j < i ensures !Supported(entries[j].code) {
          assert entries[j].quality == entries[i].quality;
        }
        FirstSupportedAt(entries, i);
      }
    }
  }

  lemma PermutedHolds(raw: string, order: seq<Entry>)
    requires Permutes(raw, order)
    ensures forall e :: e in order <==> e in Entries(raw)
  {
    forall e ensures e in order <==> e in Entries(raw) {
      assert e in order <==> e in multiset(order);
      assert e in Entries(raw) <==> e in multiset(Entries(raw));
    }
  }

  predicate Open(entries: seq<Entry>) {
    !Numeric(entries) && !Level(entries)
  }

  /** Whatever the sort makes of different numbers and a NaN, the answer is a supported language the header
      lists, and English when it lists none. */
  lemma OpenStaysListed(raw: string, order: seq<Entry>)
    requires Open(Entries(raw)) && Permutes(raw, order)
    ensures if Lists(Entries(raw)) then Supported(Answered(raw, order)) && Listed(Entries(raw), Answered(raw, order))
            else Answered(raw, order) == "en"
  {
    var entries := Entries(raw);
    FirstSupportedIsListed(order);
    PermutedHolds(raw, order);
    SupportedRawIsListed(raw);
    if Lists(entries) {
      var j :| 0 <= j < |entries| && Supported(entries[j].code);
      assert entries[j] in order;
    }
  }

  predicate OneSupported(entries: seq<Entry>) {
    forall i, j :: 0 <= i < |entries| && 0 <= j < |entries| && Supported(entries[i].code) && Supported(entries[j].code)
                   ==> entries[i].code == entries[j].code
  }

  function ToFront(entries: seq<Entry>, i: nat): seq<Entry>
    requires i < |entries|
  {
    [entries[i]] + (entries[..i] + entries[i + 1..])
  }

  lemma FrontIsAnswered(raw: string, i: nat)
    requires i < |Entries(raw)| && Supported(Entries(raw)[i].code) && Open(Entries(raw))
    ensures Permutes(raw, ToFront(Entries(raw), i)) && Answered(raw, ToFront(Entries(raw), i)) == Entries(raw)[i].code
  {
    ToFrontPermutes(Entries(raw), i);
    FirstSupportedAt(ToFront(Entries(raw), i), 0);
  }

  lemma ToFrontPermutes(entries: seq<Entry>, i: nat)
    requires i < |entries|
    ensures multiset(ToFront(entries, i)) == multiset(entries)
  {
    assert entries == entries[..i] + ([entries[i]] + entries[i + 1..]);
  }

  /** The answer depends on nothing but the header exactly when its qualities are all numbers, or those
      that are numbers are all the same, or it lists no two different supported languages. */
  lemma AnswerIsFixedIff(raw: string)
    ensures (forall o, p: seq<Entry> | Permutes(raw, o) && Permutes(raw, p) :: Answered(raw, o) == Answered(raw, p))
            <==> Numeric(Entries(raw)) || Level(Entries(raw)) || OneSupported(Entries(raw))
  {
    var entries := Entries(raw);
    if Open(entries) {
      if OneSupported(entries) {
        forall o, p: seq<Entry> | Permutes(raw, o) && Permutes(raw, p) ensures Answered(raw, o) == Answered(raw, p) {
          OpenStaysListed(raw, o);
          OpenStaysListed(raw, p);
        }
      } else {
        var i, j :| 0 <= i < |entries| && 0 <= j < |entries| && Supported(entries[i].code) && Supported(entries[j].code)
                    && entries[i].code != entries[j].code;
        FrontIsAnswered(raw, i);
        FrontIsAnswered(raw, j);
      }
    }
  }

  lemma ParseCons(lang: string, rest: seq<string>)
    ensures Parse([lang] + rest) == Parse([lang]) + Parse(rest)
  {
    ParseOnly(lang);
    assert ([lang] + rest)[1..] == rest;
  }

  lemma ParseOnly(lang: string)
    ensures Parse([lang]) == if Code(lang) != [] then [Entry(Code(lang), Quality(lang))] else []
  {
    if Code(lang) != [] { ParseOne(lang); } else { assert Parse([lang][1..]) == []; }
  }

  lemma EntriesCons(lang: string, rest: string)
    requires ',' !in lang
    ensures Entries(lang + [','] + rest) == Parse([lang]) + Entries(rest)
  {
    SplitCons(lang, ',', rest);
    ParseCons(lang, Split(rest, ','));
  }

  lemma NoNumber()
    ensures Quality(";q=.") == None
  {
    var weight, none := ";q=.", "";
    assert weight[..3] == ";q=" && weight[3..] == "." && "."[1..] == none;
    assert Leading(".", IsNumeral) == "." && Leading(".", IsDigit) == none && Leading(none, IsDigit) == none;
    assert QualityText(weight) == Some(".");
  }

  lemma ThreeRanges(a: string, b: string, c: string, x: Entry, y: Entry, z: Entry)
    requires ',' !in a && ',' !in b && Parse([a]) == [x] && Parse([b]) == [y] && Entries(c) == [z]
    ensures Entries(a + [','] + (b + [','] + c)) == [x, y, z]
  {
    EntriesCons(a, b + [','] + c);
    EntriesCons(b, c);
  }

  lemma OneRange(lang: string, code: string, weight: string)
    requires |code| == 2 && 'a' <= code[0] <= 'z' && 'a' <= code[1] <= 'z' && weight != [] && weight[0] == ';'
    requires lang == code + weight
    ensures Parse([lang]) == [Entry(code, Quality(weight))]
  {
    PlainCode(code);
    WeightedRange(code, weight);
  }

  /** The failing case: a header whose answer is the sort's to decide. */
  lemma OpenHeaderDependsOnSort(raw: string)
    requires raw == "tr;q=.,de;q=0,en"
    ensures |Entries(raw)| == 3 && Open(Entries(raw))
    ensures Permutes(raw, ToFront(Entries(raw), 0)) && Answered(raw, ToFront(Entries(raw), 0)) == "tr"
    ensures Permutes(raw, ToFront(Entries(raw), 2)) && Answered(raw, ToFront(Entries(raw), 2)) == "en"
  {
    OpenHeaderEntries(raw, "tr;q=.", "de;q=0", "en");
    OpenThree(raw, Entries(raw));
  }

  lemma OpenThree(raw: string, entries: seq<Entry>)
    requires entries == Entries(raw) == [Entry("tr", None), Entry("de", Some(0.0)), Entry("en", Some(1.0))]
    ensures Open(entries)
    ensures Permutes(raw, ToFront(entries, 0)) && Answered(raw, ToFront(entries, 0)) == "tr"
    ensures Permutes(raw, ToFront(entries, 2)) && Answered(raw, ToFront(entries, 2)) == "en"
  {
    assert entries[0].quality == None && entries[1].quality == Some(0.0) && entries[2].quality == Some(1.0);
    FrontIsAnswered(raw, 0);
    FrontIsAnswered(raw, 2);
  }

  lemma NoNumberRange(lang: string)
    requires lang == "tr;q=."
    ensures Parse([lang]) == [Entry("tr", None)]
  {
    OneRange(lang, "tr", ";q=.");
    NoNumber();
  }

  lemma ZeroGermanRange(lang: string)
    requires lang == "de;q=0"
    ensures Parse([lang]) == [Entry("de", Some(0.0))]
  {
    OneRange(lang, "de", ";q=0");
    ZeroQuality();
  }

  lemma OpenHeaderEntries(raw: string, tr: string, de: string, en: string)
    requires tr == "tr;q=." && de == "de;q=0" && en == "en" && raw == tr + [','] + (de + [','] + en)
    ensures Entries(raw) == [Entry("tr", None), Entry("de", Some(0.0)), Entry("en", Some(1.0))]
  {
    NoNumberRange(tr);
    ZeroGermanRange(de);
    SupportedRawParses(en);
    ThreeRanges(tr, de, en, Entry("tr", None), Entry("de", Some(0.0)), Entry("en", Some(1.0)));
  }
}
