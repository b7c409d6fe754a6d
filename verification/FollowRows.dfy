/** The follow relation on PostgreSQL: one row for each pair, from which both lists are read
    (repositories/postgresql/UserPostgreSQLDataSource.ts). */
module FollowRows {
  import opened IdLists
  import opened Optional
  import opened FollowGraph

  /** The pair is the table's primary key, so the table is a set. */
  datatype Row = Row(follower: Id, user: Id)

  function FollowingOf(rows: set<Row>, id: Id): (r: set<Id>)
    ensures forall u :: u in r <==> Row(id, u) in rows
  {
    set r | r in rows && r.follower == id :: r.user
  }

  function FollowersOf(rows: set<Row>, id: Id): (r: set<Id>)
    ensures forall f :: f in r <==> Row(f, id) in rows
  {
    set r | r in rows && r.user == id :: r.follower
  }

  // ---------------------------------------------------------------- the store's steps

  /** The four database calls an update may make. */
  datatype Step =
    | DeleteFollowing(id: Id)
    | CreateFollowing(id: Id, following: set<Id>)
    | DeleteFollowers(id: Id)
    | CreateFollowers(id: Id, followers: set<Id>)

  predicate Deletes(s: Step, r: Row) {
    (s.DeleteFollowing? && r.follower == s.id) || (s.DeleteFollowers? && r.user == s.id)
  }

  predicate Creates(s: Step, r: Row) {
    || (s.CreateFollowing? && r.follower == s.id && r.user in s.following)
    || (s.CreateFollowers? && r.user == s.id && r.follower in s.followers)
  }

  function Perform(rows: set<Row>, s: Step): set<Row> {
    match s
    case CreateFollowing(id, following) => rows + set u | u in following :: Row(id, u)
    case CreateFollowers(id, followers) => rows + set f | f in followers :: Row(f, id)
    case _ => set r | r in rows && !Deletes(s, r)
  }

  function PerformAll(rows: set<Row>, steps: seq<Step>): set<Row> {
    if steps == [] then rows else Perform(PerformAll(rows, steps[..|steps| - 1]), steps[|steps| - 1])
  }

  class UserPostgreSQLDataSource {
    var follows: set<Row>

    constructor ()
      ensures follows == {}
    {
      follows := {};
    }

    method DeleteMany(s: Step)
      requires s.DeleteFollowing? || s.DeleteFollowers?
      modifies this
      ensures follows == Perform(old(follows), s)
    {
      follows := set r | r in follows && !Deletes(s, r);
    }

    /** createMany with skipDuplicates. */
    method CreateMany(rows: seq<Row>)
      modifies this
      ensures follows == old(follows) + set r | r in rows
    {
      for i := 0 to |rows|
        invariant follows == old(follows) + set r | r in rows[..i]
      {
        follows := follows + {rows[i]};
        assert rows[..i + 1] == rows[..i] + [rows[i]];
      }
      assert rows[..|rows|] == rows;
    }

    static method FollowingRows(id: Id, following: seq<Id>) returns (rows: seq<Row>)
      ensures forall r :: r in rows <==> r.follower == id && r.user in following
    {
      rows := [];
      for i := 0 to |following|
        invariant forall r :: r in rows <==> r.follower == id && r.user in following[..i]
      {
        rows := rows + [Row(id, following[i])];
        assert following[..i + 1] == following[..i] + [following[i]];
      }
      assert following[..|following|] == following;
    }

    static method FollowersRows(id: Id, followers: seq<Id>) returns (rows: seq<Row>)
      ensures forall r :: r in rows <==> r.user == id && r.follower in followers
    {
      rows := [];
      for i := 0 to |followers|
        invariant forall r :: r in rows <==> r.user == id && r.follower in followers[..i]
      {
        rows := rows + [Row(followers[i], id)];
        assert followers[..i + 1] == followers[..i] + [followers[i]];
      }
      assert followers[..|followers|] == followers;
    }

    /** The follow part of `updateById`, when nothing comes between its database calls. */
    method UpdateById(id: Id, following: Option<seq<Id>>, followers: Option<seq<Id>>)
      modifies this
      ensures forall r :: r in follows <==>
                if followers.Some? && r.user == id then r.follower in followers.value
                else if following.Some? && r.follower == id then r.user in following.value
                else r in old(follows)
    {
      if following.Some? {
        DeleteMany(DeleteFollowing(id));
        if |following.value| > 0 {
          var rows := FollowingRows(id, following.value);
          CreateMany(rows);
        }
      }
      if followers.Some? {
        DeleteMany(DeleteFollowers(id));
        if |followers.value| > 0 {
          var rows := FollowersRows(id, followers.value);
          CreateMany(rows);
        }
      }
    }
  }

  /** Whatever calls overlap, step by step: a pair is in the table at the end exactly when something
      created it, or it was there at the start, and nothing has deleted it since. Both sides read the
      same pairs, so they always agree. */
  lemma {:induction false} RowSurvivesIff(rows: set<Row>, steps: seq<Step>, r: Row)
    ensures r in PerformAll(rows, steps) <==>
            || (r in rows && forall k :: 0 <= k < |steps| ==> !Deletes(steps[k], r))
            || exists i :: 0 <= i < |steps| && Creates(steps[i], r)
                           && forall k :: i < k < |steps| ==> !Deletes(steps[k], r)
    ensures r.user in FollowingOf(PerformAll(rows, steps), r.follower)
            <==> r.follower in FollowersOf(PerformAll(rows, steps), r.user)
  {
    if steps != [] {
      var n := |steps| - 1;
      var before, last := PerformAll(rows, steps[..n]), steps[n];
      RowSurvivesIff(rows, steps[..n], r);
      assert r in Perform(before, last) <==> Creates(last, r) || (r in before && !Deletes(last, r));
      if Creates(last, r) {
        assert Creates(steps[n], r);
      }
    }
  }

  // ---------------------------------------------------------------- whole writes

  /** The two updates of a call, each with the list computed from the rows the call read. */
  datatype Write = First(call: Call) | Second(call: Call)

  predicate Covers(w: Write, r: Row) {
    if w.First? then r.follower == w.call.follower else r.user == w.call.user
  }

  function RowOf(c: Call): Row {
    Row(c.follower, c.user)
  }

  /** What the call means the table to hold, as far as it knows. */
  function Meant(read: set<Row>, c: Call): set<Row> {
    if c.Follow? then read + {RowOf(c)} else read - {RowOf(c)}
  }

  function Steps(read: set<Row>, w: Write): seq<Step> {
    if w.First? then
      [DeleteFollowing(w.call.follower), CreateFollowing(w.call.follower, FollowingOf(Meant(read, w.call), w.call.follower))]
    else
      [DeleteFollowers(w.call.user), CreateFollowers(w.call.user, FollowersOf(Meant(read, w.call), w.call.user))]
  }

  function WriteAll(rows: set<Row>, read: set<Row>, writes: seq<Write>): set<Row> {
    if writes == [] then rows
    else PerformAll(WriteAll(rows, read, writes[..|writes| - 1]), Steps(read, writes[|writes| - 1]))
  }

  lemma WriteDecides(rows: set<Row>, read: set<Row>, w: Write, r: Row)
    ensures r in PerformAll(rows, Steps(read, w)) <==> if Covers(w, r) then r in Meant(read, w.call) else r in rows
  {
    var steps := Steps(read, w);
    assert steps[..1] == [steps[0]] && steps[..1][..0] == [];
    assert PerformAll(rows, steps[..1]) == Perform(rows, steps[0]);
    assert PerformAll(rows, steps) == Perform(Perform(rows, steps[0]), steps[1]);
  }

  predicate Accepted(rows: set<Row>, c: Call) {
    if c.Follow? then c.user != c.follower && RowOf(c) !in rows else RowOf(c) in rows
  }

  /** The last write that covers a pair decides it. */
  lemma {:induction false} LastWriteDecides(rows: set<Row>, read: set<Row>, writes: seq<Write>, k: nat, r: Row)
    requires k < |writes| && Covers(writes[k], r) && forall i :: k < i < |writes| ==> !Covers(writes[i], r)
    ensures r in WriteAll(rows, read, writes) <==> r in Meant(read, writes[k].call)
  {
    var n := |writes| - 1;
    WriteDecides(WriteAll(rows, read, writes[..n]), read, writes[n], r);
    if k < n {
      LastWriteDecides(rows, read, writes[..n], k, r);
    }
  }

  lemma {:induction false} UncoveredIsKept(rows: set<Row>, read: set<Row>, writes: seq<Write>, r: Row)
    requires forall k :: 0 <= k < |writes| && Covers(writes[k], r) ==> (r in Meant(read, writes[k].call) <==> r in rows)
    ensures r in WriteAll(rows, read, writes) <==> r in rows
  {
    if writes != [] {
      var n := |writes| - 1;
      UncoveredIsKept(rows, read, writes[..n], r);
      WriteDecides(WriteAll(rows, read, writes[..n]), read, writes[n], r);
    }
  }

  /** The first update does the whole work, so a call cut off after it is complete: no stale entry stays
      behind, and nothing needs repair. */
  lemma HalfCallIsWhole(rows: set<Row>, c: Call)
    ensures WriteAll(rows, rows, [First(c)]) == Meant(rows, c)
    ensures WriteAll(rows, rows, [First(c), Second(c)]) == Meant(rows, c)
  {
    var one, two := [First(c)], [First(c), Second(c)];
    assert one[..0] == [] && two[..1] == one;
    forall r
      ensures r in WriteAll(rows, rows, one) <==> r in Meant(rows, c)
      ensures r in WriteAll(rows, rows, two) <==> r in Meant(rows, c)
    {
      WriteDecides(rows, rows, First(c), r);
      WriteDecides(WriteAll(rows, rows, one), rows, Second(c), r);
    }
  }

  /** The four writes of two calls in some order: `fc` is where the first write of `c` stands, and so on. */
  datatype Order = Order(fc: nat, sc: nat, fd: nat, sd: nat)

  predicate InOrder(writes: seq<Write>, c: Call, d: Call, o: Order) {
    && |writes| == 4 && o.fc < o.sc < 4 && o.fd < o.sd < 4 && {o.fc, o.sc} !! {o.fd, o.sd}
    && writes[o.fc] == First(c) && writes[o.sc] == Second(c) && writes[o.fd] == First(d) && writes[o.sd] == Second(d)
  }

  function Swapped(o: Order): Order {
    Order(o.fd, o.sd, o.fc, o.sc)
  }

  predicate TookEffect(rows: set<Row>, c: Call) {
    RowOf(c) in rows <==> c.Follow?
  }

  lemma OneTakesEffectIff(rows: set<Row>, c: Call, d: Call, writes: seq<Write>, o: Order)
    requires Accepted(rows, c) && Accepted(rows, d) && c != d && InOrder(writes, c, d, o)
    ensures TookEffect(WriteAll(rows, rows, writes), c)
            <==> (c.user == d.user ==> o.sd < o.sc) && (c.follower == d.follower ==> o.fd < o.sc)
  {
    var r := RowOf(c);
    assert RowOf(d) != r;
    assert Covers(writes[o.sc], r) && (Covers(writes[o.sd], r) <==> c.user == d.user);
    assert Covers(writes[o.fd], r) <==> c.follower == d.follower;
    var last := if c.user == d.user && o.sc < o.sd then o.sd
                else if c.follower == d.follower && o.sc < o.fd then o.fd else o.sc;
    forall k | last < k < 4 ensures !Covers(writes[k], r) {
      assert k == o.fc || k == o.sc || k == o.fd || k == o.sd;
    }
    LastWriteDecides(rows, rows, writes, last, r);
  }

  /** Two different calls that both read before either wrote, their writes in any order: no other pair is
      touched, and a call takes effect exactly when the other, if it has the same user, made its second
      write before this one's, and, if it has the same follower, made its first write before this one's
      second. So of two calls on one user exactly the one that finishes last takes effect, and of two
      calls by one follower one is lost only if the other starts writing after it has finished. */
  lemma OverlappingWritesIff(rows: set<Row>, c: Call, d: Call, writes: seq<Write>, o: Order)
    requires Accepted(rows, c) && Accepted(rows, d) && c != d && InOrder(writes, c, d, o)
    ensures var after := WriteAll(rows, rows, writes);
            && (TookEffect(after, c)
                <==> (c.user == d.user ==> o.sd < o.sc) && (c.follower == d.follower ==> o.fd < o.sc))
            && (TookEffect(after, d)
                <==> (c.user == d.user ==> o.sc < o.sd) && (c.follower == d.follower ==> o.fc < o.sd))
            && forall r :: r != RowOf(c) && r != RowOf(d) ==> (r in after <==> r in rows)
  {
    OneTakesEffectIff(rows, c, d, writes, o);
    OneTakesEffectIff(rows, d, c, writes, Swapped(o));
    forall r | r != RowOf(c) && r != RowOf(d) ensures r in WriteAll(rows, rows, writes) <==> r in rows {
      forall k | 0 <= k < 4 ensures writes[k].call == c || writes[k].call == d {
        assert k == o.fc || k == o.sc || k == o.fd || k == o.sd;
      }
      UncoveredIsKept(rows, rows, writes, r);
    }
  }

  /** The failing cases: of two follows of one user the one whose second write comes first is lost, and of
      two follows by one user the one that is over before the other writes. */
  lemma OverlappingFollowsLoseOne(a: Id, b: Id, u: Id, v: Id)
    requires a != b && u != v && a != u && b != u && a != v
    ensures var c, d := Follow(u, a), Follow(u, b);
            WriteAll({}, {}, [First(c), First(d), Second(c), Second(d)]) == {Row(b, u)}
    ensures var c, d := Follow(u, a), Follow(v, a);
            WriteAll({}, {}, [First(c), Second(c), First(d), Second(d)]) == {Row(a, v)}
  {
    var c, d, e := Follow(u, a), Follow(u, b), Follow(v, a);
    var one, two := [First(c), First(d), Second(c), Second(d)], [First(c), Second(c), First(e), Second(e)];
    OverlappingWritesIff({}, c, d, one, Order(0, 2, 1, 3));
    OverlappingWritesIff({}, c, e, two, Order(0, 1, 2, 3));
    assert !TookEffect(WriteAll({}, {}, one), c) && TookEffect(WriteAll({}, {}, one), d);
    assert !TookEffect(WriteAll({}, {}, two), c) && TookEffect(WriteAll({}, {}, two), e);
  }
}
