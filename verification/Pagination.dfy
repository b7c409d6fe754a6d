/** Newest-first pagination and page lookup (repositories/AnswerRepository.ts, and the in-memory
    fallback of repositories/QuestionRepository.ts). */
module Pagination {
  import opened Optional
  import opened StableSort

  type Id = string

  datatype Answer = Answer(id: Id, question: Id, createdAt: int)
  datatype Page<T> = Page(data: seq<T>, page: int, limit: int, total: nat, totalPages: Number, hasNext: bool, hasPrev: bool)

  /** What dividing by a limit can give; nothing stops a caller from passing a limit of zero or below. */
  datatype Number = Finite(value: int) | Infinity | NaN

  /** Array.prototype.slice: a negative bound counts from the end, and both are clamped. */
  function Slice<T>(s: seq<T>, start: int, end: int): seq<T> {
    var from := if start < 0 then Max(|s| + start, 0) else Min(start, |s|);
    var to := if end < 0 then Max(|s| + end, 0) else Min(end, |s|);
    if from < to then s[from..to] else []
  }

  function Min(a: int, b: int): int { if a < b then a else b }
  function Max(a: int, b: int): int { if a < b then b else a }

  function CeilDiv(n: nat, d: nat): nat
    requires d > 0
  {
    (n + d - 1) / d
  }

  /** Math.ceil(n / d) */
  function Ceiling(n: nat, d: int): Number {
    if d > 0 then Finite(CeilDiv(n, d)) else if d < 0 then Finite(-(n / -d)) else if n == 0 then NaN else Infinity
  }

  /** Math.floor(n / d) + 1 */
  function FloorPlusOne(n: nat, d: int): Number {
    if d > 0 then Finite(n / d + 1) else if d < 0 then Finite(1 - CeilDiv(n, -d)) else if n == 0 then NaN else Infinity
  }

  predicate Below(n: int, bound: Number) {
    match bound case Finite(v) => n < v case Infinity => true case NaN => false
  }

  function Data<T>(s: seq<T>, page: int, limit: int): seq<T> {
    Slice(s, (page - 1) * limit, (page - 1) * limit + limit)
  }

  function PageOf<T>(s: seq<T>, page: int, limit: int): Page<T> {
    var totalPages := Ceiling(|s|, limit);
    Page(Data(s, page, limit), page, limit, |s|, totalPages, Below(page, totalPages), page > 1)
  }

  function OfQuestion(all: seq<Answer>, question: Id): seq<Answer> {
    if all == [] then []
    else (if all[0].question == question then [all[0]] else []) + OfQuestion(all[1..], question)
  }

  function Time(a: Answer): real {
    a.createdAt as real
  }

  function Listing(all: seq<Answer>, question: Id): seq<Answer> {
    SortDescending(OfQuestion(all, question), Time)
  }

  function IndexOf(s: seq<Answer>, id: Id): (k: Option<nat>)
    ensures k.Some? ==> k.value < |s| && s[k.value].id == id
    ensures k.None? ==> forall i :: 0 <= i < |s| ==> s[i].id != id
  {
    if s == [] then None
    else if s[0].id == id then Some(0)
    else
      var k := IndexOf(s[1..], id);
      if k.Some? then Some(k.value + 1)
      else
        assert forall i :: 0 < i < |s| ==> s[i] == s[1..][i - 1];
        None
  }

  function PageNumber(s: seq<Answer>, id: Id, limit: int): Option<Number> {
    match IndexOf(s, id)
    case None => None
    case Some(k) => Some(FloorPlusOne(k, limit))
  }

  class AnswerRepository {
    var answers: seq<Answer>

    constructor (answers: seq<Answer>)
      ensures this.answers == answers
    {
      this.answers := answers;
    }

    method FindByQuestionPaginated(question: Id, page: int, limit: int) returns (r: Page<Answer>)
      ensures r == PageOf(Listing(answers, question), page, limit)
    {
      var filtered := OfQuestion(answers, question);
      filtered := SortDescending(filtered, Time);
      var total := |filtered|;
      var totalPages := Ceiling(total, limit);
      var startIndex := (page - 1) * limit;
      var data := Slice(filtered, startIndex, startIndex + limit);
      r := Page(data, page, limit, total, totalPages, Below(page, totalPages), page > 1);
    }

    method FindAnswerPageNumber(question: Id, answer: Id, limit: int) returns (r: Option<Number>)
      ensures r == PageNumber(Listing(answers, question), answer, limit)
    {
      var filtered := OfQuestion(answers, question);
      filtered := SortDescending(filtered, Time);
      var index := IndexOf(filtered, answer);
      if index.None? { return None; }
      r := Some(FloorPlusOne(index.value, limit));
    }
  }

  // ---------------------------------------------------------------- pages partition the list

  function Concatenated<T>(s: seq<T>, pages: nat, limit: int): seq<T> {
    if pages == 0 then [] else Concatenated(s, pages - 1, limit) + Data(s, pages, limit)
  }

  lemma DataIsRange<T>(s: seq<T>, page: int, limit: nat)
    requires page >= 1
    ensures 0 <= (page - 1) * limit <= (page - 1) * limit + limit == page * limit
    ensures Data(s, page, limit) == s[Min((page - 1) * limit, |s|)..Min(page * limit, |s|)]
  {
    Scaled(0, page - 1, limit);
    Pred(page, limit);
    SliceForward(s, (page - 1) * limit, page * limit);
  }

  lemma Pred(page: int, limit: nat)
    ensures (page - 1) * limit + limit == page * limit
  {
  }

  lemma SliceForward<T>(s: seq<T>, start: nat, end: nat)
    requires start <= end
    ensures Slice(s, start, end) == s[Min(start, |s|)..Min(end, |s|)]
  {
  }

  lemma {:induction false} ConcatenatedIsPrefix<T>(s: seq<T>, pages: nat, limit: nat)
    ensures 0 <= pages * limit
    ensures Concatenated(s, pages, limit) == s[..Min(pages * limit, |s|)]
  {
    if pages > 0 {
      ConcatenatedIsPrefix(s, pages - 1, limit);
      DataIsRange(s, pages, limit);
      PrefixThenRange(s, Min((pages - 1) * limit, |s|), Min(pages * limit, |s|));
    }
  }

  lemma PrefixThenRange<T>(s: seq<T>, i: nat, j: nat)
    requires i <= j <= |s|
    ensures s[..i] + s[i..j] == s[..j]
  {
  }

  lemma CeilDivMeaning(n: nat, d: nat, p: int)
    requires d > 0
    ensures p < CeilDiv(n, d) <==> p * d < n
  {
    var q := CeilDiv(n, d);
    assert q * d <= n + d - 1 < q * d + d;
    if p < q {
      assert (p + 1) * d <= q * d by { Scaled(p + 1, q, d); }
    } else {
      assert q * d <= p * d by { Scaled(q, p, d); }
    }
  }

  lemma Scaled(a: int, b: int, d: nat)
    requires a <= b
    ensures a * d <= b * d
  {
  }

  /** Pages 1 to totalPages put together are the whole list in order, and there is a next page
      exactly when the next page holds something. */
  lemma PagesPartition<T>(s: seq<T>, limit: nat)
    requires limit > 0
    ensures var n := PageOf(s, 1, limit).totalPages;
            && n.Finite? && n.value >= 0 && Concatenated(s, n.value, limit) == s
            && forall page :: page >= 0 ==> (PageOf(s, page, limit).hasNext <==> Data(s, page + 1, limit) != [])
  {
    var n := CeilDiv(|s|, limit);
    ConcatenatedIsPrefix(s, n, limit);
    CeilDivMeaning(|s|, limit, n);
    forall page | page >= 0 ensures PageOf(s, page, limit).hasNext <==> Data(s, page + 1, limit) != [] {
      DataIsRange(s, page + 1, limit);
      CeilDivMeaning(|s|, limit, page);
    }
  }

  /** The code checks no page number: page 0 is always empty, and a negative page -k shows up to `limit`
      entries counted from the end, past the last k * limit of them. */
  lemma UnnumberedPages<T>(s: seq<T>, page: int, limit: nat)
    requires limit > 0 && page <= 0
    ensures Data(s, page, limit) == if page < 0 && -page * limit < |s| then
                                      s[Max(|s| + page * limit - limit, 0)..|s| + page * limit]
                                    else []
  {
    assert (page - 1) * limit + limit == page * limit;
    assert page * limit <= 0;
    if page < 0 { assert page * limit <= -1 * limit by { Scaled(page, -1, limit); } }
  }

  /** The counts on a page: the limit and number asked for, the size of the whole list, and whether there
      is an earlier page that holds something. A page within the list holds `limit` entries, the last
      one what is left. */
  lemma PageCounts<T>(s: seq<T>, page: int, limit: int)
    requires limit > 0 && s != []
    ensures var r := PageOf(s, page, limit);
            && r.page == page && r.limit == limit && r.total == |s|
            && (r.hasPrev <==> exists p :: 1 <= p < page && Data(s, p, limit) != [])
            && (page >= 1 && page * limit <= |s| ==> |r.data| == limit)
            && (page >= 1 && (page - 1) * limit < |s| < page * limit ==> |r.data| == |s| - (page - 1) * limit)
  {
    DataIsRange(s, 1, limit);
    assert Data(s, 1, limit) != [];
    if page >= 1 { DataIsRange(s, page, limit); }
  }

  /** The question's answers created at one time, in stored order. */
  function CreatedAt(all: seq<Answer>, question: Id, time: int): seq<Answer> {
    if all == [] then []
    else
      (if all[0].question == question && all[0].createdAt == time then [all[0]] else [])
      + CreatedAt(all[1..], question, time)
  }

  lemma {:induction false} SameTimeInOrder(all: seq<Answer>, question: Id, time: int)
    ensures WithKey(OfQuestion(all, question), Time, time as real) == CreatedAt(all, question, time)
  {
    if all != [] {
      SameTimeInOrder(all[1..], question, time);
      if all[0].question == question {
        WithKeyCons(all[0], OfQuestion(all[1..], question), Time, time as real);
        assert Time(all[0]) == time as real <==> all[0].createdAt == time;
      } else {
        assert OfQuestion(all, question) == OfQuestion(all[1..], question);
      }
    }
  }

  // ---------------------------------------------------------------- lookup agrees with pages

  predicate UniqueIds(s: seq<Answer>) {
    forall i, j :: 0 <= i < j < |s| ==> s[i].id != s[j].id
  }

  predicate Holds(data: seq<Answer>, id: Id) {
    exists a :: a in data && a.id == id
  }

  lemma {:induction false} OfQuestionMeaning(all: seq<Answer>, question: Id)
    ensures forall a :: a in OfQuestion(all, question) <==> a in all && a.question == question
    ensures UniqueIds(all) ==> UniqueIds(OfQuestion(all, question))
  {
    if all != [] {
      OfQuestionMeaning(all[1..], question);
      if UniqueIds(all) {
        assert UniqueIds(all[1..]);
        forall a | a in OfQuestion(all[1..], question) ensures a.id != all[0].id {
          var k :| 0 <= k < |all[1..]| && all[1..][k] == a;
          assert all[k + 1] == a;
        }
      }
    }
  }

  lemma {:induction false} InsertKeepsUnique(x: Answer, s: seq<Answer>)
    requires UniqueIds(s) && !Holds(s, x.id)
    ensures UniqueIds(Insert(x, s, Time))
  {
    if s != [] && Time(x) < Time(s[0]) {
      assert UniqueIds(s[1..]);
      InsertKeepsUnique(x, s[1..]);
      forall a | a in Insert(x, s[1..], Time) ensures a.id != s[0].id {
        if a != x {
          var k :| 0 <= k < |s[1..]| && s[1..][k] == a;
          assert s[k + 1] == a;
        } else {
          assert s[0] in s;
        }
      }
    }
  }

  lemma {:induction false} SortKeepsUnique(s: seq<Answer>)
    requires UniqueIds(s)
    ensures UniqueIds(SortDescending(s, Time))
  {
    if s != [] {
      assert UniqueIds(s[1..]);
      SortKeepsUnique(s[1..]);
      forall a | a in SortDescending(s[1..], Time) ensures a.id != s[0].id {
        var k :| 0 <= k < |s[1..]| && s[1..][k] == a;
        assert s[k + 1] == a;
      }
      InsertKeepsUnique(s[0], SortDescending(s[1..], Time));
    }
  }

  lemma QuotientIff(k: nat, page: int, limit: nat)
    requires limit > 0
    ensures (page - 1) * limit <= k < page * limit <==> k / limit + 1 == page
  {
    var q := k / limit;
    assert q * limit <= k < q * limit + limit;
    if q + 1 < page {
      Scaled(q + 1, page - 1, limit);
    } else if q + 1 > page {
      Scaled(page, q, limit);
    }
  }

  lemma InRangeIff(s: seq<Answer>, k: nat, from: nat, to: nat)
    requires UniqueIds(s) && k < |s| && from <= to <= |s|
    ensures Holds(s[from..to], s[k].id) <==> from <= k < to
  {
    if from <= k < to {
      assert s[from..to][k - from] == s[k];
    }
    forall a | a in s[from..to] && a.id == s[k].id ensures from <= k < to {
      var i :| 0 <= i < |s[from..to]| && s[from..to][i] == a;
      assert from + i == k;
    }
  }

  lemma InPageIff(s: seq<Answer>, k: nat, page: int, limit: nat)
    requires UniqueIds(s) && k < |s| && limit > 0 && page >= 1
    ensures Holds(Data(s, page, limit), s[k].id) <==> k / limit + 1 == page
  {
    DataIsRange(s, page, limit);
    QuotientIff(k, page, limit);
    InRangeIff(s, k, Min((page - 1) * limit, |s|), Min(page * limit, |s|));
  }

  /** The lookup answers p exactly for the one page that holds the answer, and nothing exactly when
      no page does. */
  lemma LookupAgreesWithPages(all: seq<Answer>, question: Id, id: Id, limit: nat)
    requires UniqueIds(all) && limit > 0
    ensures var s := Listing(all, question);
            && (forall page :: page >= 1 ==>
                  (PageNumber(s, id, limit) == Some(Finite(page)) <==> Holds(PageOf(s, page, limit).data, id)))
            && (PageNumber(s, id, limit).None? <==> forall a :: a in all && a.question == question ==> a.id != id)
  {
    var s := Listing(all, question);
    OfQuestionMeaning(all, question);
    SortKeepsUnique(OfQuestion(all, question));
    match IndexOf(s, id) {
      case Some(k) =>
        assert s[k] in s;
        forall page | page >= 1 ensures PageNumber(s, id, limit) == Some(Finite(page)) <==> Holds(Data(s, page, limit), id) {
          InPageIff(s, k, page, limit);
        }
      case None =>
        forall page | page >= 1 ensures !Holds(Data(s, page, limit), id) {
          DataIsRange(s, page, limit);
          forall a | a in Data(s, page, limit) ensures a.id != id {
            assert a in s;
          }
        }
        forall a | a in all && a.question == question ensures a.id != id {
          assert a in s;
        }
    }
  }

  /** The listing pages are cut from: the question's answers, newest first, ties in stored order. */
  lemma ListingIsStablySorted(all: seq<Answer>, question: Id, time: int)
    ensures var s := Listing(all, question);
            && (forall a :: a in s <==> a in all && a.question == question)
            && (forall i, j :: 0 <= i < j < |s| ==> s[i].createdAt >= s[j].createdAt)
            && WithKey(s, Time, time as real) == CreatedAt(all, question, time)
  {
    var s := Listing(all, question);
    OfQuestionMeaning(all, question);
    SortIsStable(OfQuestion(all, question), Time, time as real);
    SameTimeInOrder(all, question, time);
    forall i, j | 0 <= i < j < |s| ensures s[i].createdAt >= s[j].createdAt {
      assert Time(s[i]) >= Time(s[j]);
    }
  }

  // ---------------------------------------------------------------- limits of zero and below

  /** With such a limit only the first page can show anything: all but the last -limit entries. A limit
      of zero promises a next page after every page of a list that is not empty, a negative one never. */
  lemma UnusableLimits<T>(s: seq<T>, page: int, limit: int)
    requires limit <= 0 && page >= 1
    ensures Data(s, page, limit) == if page == 1 && -|s| < limit < 0 then s[..|s| + limit] else []
    ensures PageOf(s, page, limit).hasNext <==> limit == 0 && s != []
  {
    var n := -limit;
    assert (page - 1) * limit == -((page - 1) * n) && (page - 1) * n >= 0;
    if page > 1 && limit < 0 {
      Scaled(1, page - 1, n);
    }
  }

  lemma {:induction false} UnusablePagesTogether<T>(s: seq<T>, pages: nat, limit: int)
    requires limit <= 0
    ensures Concatenated(s, pages, limit) == if pages > 0 && -|s| < limit < 0 then s[..|s| + limit] else []
  {
    if pages > 0 {
      UnusablePagesTogether(s, pages - 1, limit);
      UnusableLimits(s, pages, limit);
    }
  }

  /** Some number of first pages makes up the whole list exactly when the limit is positive or there is
      nothing to show. */
  lemma PagesCoverIff<T(!new)>(s: seq<T>, limit: int)
    ensures (exists n: nat :: Concatenated(s, n, limit) == s) <==> limit > 0 || s == []
  {
    if limit > 0 {
      PagesPartition(s, limit);
      assert Concatenated(s, PageOf(s, 1, limit).totalPages.value, limit) == s;
    } else if s == [] {
      assert Concatenated(s, 0, limit) == s;
    } else {
      forall n: nat ensures Concatenated(s, n, limit) != s {
        UnusablePagesTogether(s, n, limit);
      }
    }
  }

  /** The lookup names a page exactly for the answers that page shows. */
  ghost predicate Agrees(s: seq<Answer>, limit: int) {
    forall id, page: int :: page >= 1 ==> (PageNumber(s, id, limit) == Some(Finite(page)) <==> Holds(Data(s, page, limit), id))
  }

  lemma IndexOfEntry(s: seq<Answer>, k: nat)
    requires UniqueIds(s) && k < |s|
    ensures IndexOf(s, s[k].id) == Some(k)
  {
  }

  lemma NegativeLookup(k: nat, limit: int)
    requires limit < 0
    ensures FloorPlusOne(k, limit).value >= 1 <==> k == 0
    ensures k == 0 ==> FloorPlusOne(k, limit) == Finite(1)
  {
    CeilDivMeaning(k, -limit, 0);
  }

  lemma FirstPageHolds(s: seq<Answer>, k: nat, limit: int)
    requires UniqueIds(s) && k < |s| && limit < 0
    ensures Holds(Data(s, 1, limit), s[k].id) <==> k < |s| + limit
  {
    UnusableLimits(s, 1, limit);
    if -|s| < limit { InRangeIff(s, k, 0, |s| + limit); }
  }

  /** For every limit: lookup and pages agree exactly when the limit is not negative, or there are no
      answers, or the first page shows just one. */
  lemma LookupAgreesIff(all: seq<Answer>, question: Id, limit: int)
    requires UniqueIds(all)
    ensures var s := Listing(all, question);
            Agrees(s, limit) <==> limit >= 0 || s == [] || |s| + limit == 1
  {
    var s := Listing(all, question);
    OfQuestionMeaning(all, question);
    SortKeepsUnique(OfQuestion(all, question));
    if limit > 0 {
      forall id, page: int | page >= 1
        ensures PageNumber(s, id, limit) == Some(Finite(page)) <==> Holds(Data(s, page, limit), id)
      {
        LookupAgreesWithPages(all, question, id, limit);
      }
    } else if limit == 0 {
      forall id, page: int | page >= 1
        ensures PageNumber(s, id, limit) == Some(Finite(page)) <==> Holds(Data(s, page, limit), id)
      {
        UnusableLimits(s, page, limit);
      }
    } else {
      NegativeLimitAgreesIff(s, limit);
    }
  }

  lemma NegativeLimitAgreesIff(s: seq<Answer>, limit: int)
    requires UniqueIds(s) && limit < 0
    ensures Agrees(s, limit) <==> s == [] || |s| + limit == 1
  {
    if s == [] || |s| + limit == 1 {
      forall id, page: int | page >= 1
        ensures PageNumber(s, id, limit) == Some(Finite(page)) <==> Holds(Data(s, page, limit), id)
      {
        UnusableLimits(s, page, limit);
        match IndexOf(s, id) {
          case Some(k) =>
            NegativeLookup(k, limit);
            FirstPageHolds(s, k, limit);
          case None =>
            assert forall a :: a in Data(s, page, limit) ==> a in s;
        }
      }
    } else {
      var k := if |s| + limit < 1 then 0 else 1;
      IndexOfEntry(s, k);
      NegativeLookup(k, limit);
      FirstPageHolds(s, k, limit);
      assert !(PageNumber(s, s[k].id, limit) == Some(Finite(1)) <==> Holds(Data(s, 1, limit), s[k].id));
    }
  }
}
