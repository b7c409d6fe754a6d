/** The PostgreSQL representation of reactions: one row for each content and user
    (repositories/postgresql/AnswerPostgreSQLDataSource.ts). */
module ReactionStore {
  import opened IdLists
  import opened Optional
  import opened Reactions

  datatype ContentType = Answer | Question
  datatype Kind = LikeRow | DislikeRow
  datatype Row = Row(contentType: ContentType, contentId: Id, userId: Id, kind: Kind)

  predicate About(r: Row, id: Id) {
    r.contentType == Answer && r.contentId == id
  }

  predicate SameKey(a: Row, b: Row) {
    a.contentType == b.contentType && a.contentId == b.contentId && a.userId == b.userId
  }

  /** `deleteMany` for one answer. */
  function DeleteMany(rows: seq<Row>, id: Id): seq<Row> {
    if rows == [] then []
    else (if About(rows[0], id) then [] else [rows[0]]) + DeleteMany(rows[1..], id)
  }

  /** `createMany` with skipDuplicates: a row whose unique key is taken is left out. */
  function CreateMany(rows: seq<Row>, more: seq<Row>): seq<Row>
    decreases |more|
  {
    if more == [] then rows else CreateMany(Insert(rows, more[0]), more[1..])
  }

  function Insert(rows: seq<Row>, r: Row): seq<Row> {
    if exists q :: q in rows && SameKey(q, r) then rows else rows + [r]
  }

  function RowsOf(id: Id, users: seq<Id>, kind: Kind): (r: seq<Row>)
    ensures |r| == |users|
    ensures forall k :: 0 <= k < |r| ==> r[k] == Row(Answer, id, users[k], kind)
  {
    if users == [] then [] else [Row(Answer, id, users[0], kind)] + RowsOf(id, users[1..], kind)
  }

  function UsersOf(rows: seq<Row>, id: Id, kind: Kind): seq<Id> {
    if rows == [] then []
    else
      var r := rows[0];
      (if About(r, id) && r.kind == kind then [r.userId] else []) + UsersOf(rows[1..], id, kind)
  }

  function Load(rows: seq<Row>, id: Id): Lists {
    Lists(UsersOf(rows, id, LikeRow), UsersOf(rows, id, DislikeRow))
  }

  function Named(users: Option<seq<Id>>): seq<Id> {
    if users.Some? then users.value else []
  }

  /** The second half of an update: what it writes after its delete. */
  function Fill(rows: seq<Row>, id: Id, p: Patch): seq<Row> {
    CreateMany(rows, NewRows(id, Named(p.likes), Named(p.dislikes)))
  }

  /** The reaction part of `updateById` when nothing comes between its delete and its create. */
  function Store(rows: seq<Row>, id: Id, p: Patch): seq<Row> {
    if p.likes.None? && p.dislikes.None? then rows else Fill(DeleteMany(rows, id), id, p)
  }

  class AnswerPostgreSQLDataSource {
    var reactions: seq<Row>

    constructor ()
      ensures reactions == []
    {
      reactions := [];
    }

    method LoadReactions(id: Id) returns (r: Lists)
      ensures r == Load(reactions, id)
    {
      return Lists(UsersOf(reactions, id, LikeRow), UsersOf(reactions, id, DislikeRow));
    }

    static method PushRows(rows: seq<Row>, id: Id, users: seq<Id>, kind: Kind) returns (r: seq<Row>)
      ensures r == rows + RowsOf(id, users, kind)
    {
      r := rows;
      for i := 0 to |users|
        invariant |r| == |rows| + i
        invariant forall k :: 0 <= k < |r| ==>
                    r[k] == if k < |rows| then rows[k] else Row(Answer, id, users[k - |rows|], kind)
      {
        r := r + [Row(Answer, id, users[i], kind)];
      }
    }

    /** `updateById` up to the await of its delete ... */
    method DeleteReactions(id: Id)
      modifies this
      ensures reactions == DeleteMany(old(reactions), id)
    {
      reactions := DeleteMany(reactions, id);
    }

    /** ... and from there to the await of its create. */
    method CreateReactions(id: Id, p: Patch)
      modifies this
      ensures reactions == Fill(old(reactions), id, p)
    {
      var likes, dislikes := Named(p.likes), Named(p.dislikes);
      var toCreate := PushRows([], id, likes, LikeRow);
      assert toCreate == RowsOf(id, likes, LikeRow);
      toCreate := PushRows(toCreate, id, dislikes, DislikeRow);
      assert toCreate == NewRows(id, likes, dislikes);
      if |toCreate| > 0 {
        reactions := CreateMany(reactions, toCreate);
      }
    }

    /** A whole update that nothing interrupts. */
    method UpdateById(id: Id, p: Patch) returns (r: Lists)
      modifies this
      ensures reactions == Store(old(reactions), id, p)
      ensures r == Load(reactions, id)
    {
      if p.likes.Some? || p.dislikes.Some? {
        DeleteReactions(id);
        CreateReactions(id, p);
      }
      r := LoadReactions(id);
    }
  }

  // ---------------------------------------------------------------- what a write leaves

  predicate UniqueKeys(rows: seq<Row>) {
    forall i, j :: 0 <= i < j < |rows| ==> !SameKey(rows[i], rows[j])
  }

  lemma {:induction false} DeleteManyMeaning(rows: seq<Row>, id: Id)
    ensures forall r :: r in DeleteMany(rows, id) <==> r in rows && !About(r, id)
    ensures UniqueKeys(rows) ==> UniqueKeys(DeleteMany(rows, id))
  {
    if rows != [] {
      DeleteManyMeaning(rows[1..], id);
      var rest := DeleteMany(rows[1..], id);
      if UniqueKeys(rows) {
        assert UniqueKeys(rows[1..]);
        forall r | r in rest ensures !SameKey(rows[0], r) {
          var k :| 0 <= k < |rows[1..]| && rows[1..][k] == r;
          assert r == rows[k + 1];
        }
      }
    }
  }

  /** The row that wins a key is the first one: an old row, else the first new row with that key. */
  predicate Wins(rows: seq<Row>, more: seq<Row>, r: Row) {
    || r in rows
    || exists k :: 0 <= k < |more| && more[k] == r && (forall j :: 0 <= j < k ==> !SameKey(more[j], r))
                   && (forall q :: q in rows ==> !SameKey(q, r))
  }

  lemma {:induction false} CreateManyMeaning(rows: seq<Row>, more: seq<Row>)
    ensures forall r :: r in CreateMany(rows, more) <==> Wins(rows, more, r)
    ensures UniqueKeys(rows) ==> UniqueKeys(CreateMany(rows, more))
    decreases |more|
  {
    if more != [] {
      CreateManyMeaning(Insert(rows, more[0]), more[1..]);
      forall r ensures Wins(rows, more, r) <==> Wins(Insert(rows, more[0]), more[1..], r) {
        if Wins(rows, more, r) { WinsForward(rows, more, r); }
        if Wins(Insert(rows, more[0]), more[1..], r) { WinsBackward(rows, more, r); }
      }
    }
  }

  lemma WinsForward(rows: seq<Row>, more: seq<Row>, r: Row)
    requires more != [] && Wins(rows, more, r)
    ensures Wins(Insert(rows, more[0]), more[1..], r)
  {
    if r !in rows {
      var k :| 0 <= k < |more| && more[k] == r && (forall j :: 0 <= j < k ==> !SameKey(more[j], r))
               && (forall q :: q in rows ==> !SameKey(q, r));
      if k > 0 {
        assert !SameKey(more[0], r);
        assert more[1..][k - 1] == r && forall j :: 0 <= j < k - 1 ==> more[1..][j] == more[j + 1];
      }
    }
  }

  lemma WinsBackward(rows: seq<Row>, more: seq<Row>, r: Row)
    requires more != [] && Wins(Insert(rows, more[0]), more[1..], r)
    ensures Wins(rows, more, r)
  {
    var next, rest := Insert(rows, more[0]), more[1..];
    if r in next {
      assert r in rows || r == more[0];
    } else {
      var k :| 0 <= k < |rest| && rest[k] == r && (forall j :: 0 <= j < k ==> !SameKey(rest[j], r))
               && (forall q :: q in next ==> !SameKey(q, r));
      assert exists q :: q in next && SameKey(q, more[0]) by { assert next == rows || more[0] in next; }
      assert !SameKey(more[0], r);
      assert more[k + 1] == r && forall j :: 0 < j < k + 1 ==> more[j] == rest[j - 1];
    }
  }

  lemma {:induction false} UsersOfMeaning(rows: seq<Row>, id: Id, kind: Kind)
    ensures forall u :: u in UsersOf(rows, id, kind) <==> Row(Answer, id, u, kind) in rows
    ensures UniqueKeys(rows) ==> NoDuplicates(UsersOf(rows, id, kind))
  {
    if rows != [] {
      UsersOfMeaning(rows[1..], id, kind);
      var rest := UsersOf(rows[1..], id, kind);
      if UniqueKeys(rows) {
        assert UniqueKeys(rows[1..]);
        forall r | r in rows[1..] ensures !SameKey(rows[0], r) {
          var k :| 0 <= k < |rows[1..]| && rows[1..][k] == r;
          assert r == rows[k + 1];
        }
      }
    }
  }

  lemma {:induction false} FirstIndex(s: seq<Id>, x: Id) returns (k: nat)
    requires x in s
    ensures k < |s| && s[k] == x && forall j :: 0 <= j < k ==> s[j] != x
  {
    if s[0] == x {
      k := 0;
    } else {
      var r := FirstIndex(s[1..], x);
      k := r + 1;
    }
  }

  function NewRows(id: Id, likes: seq<Id>, dislikes: seq<Id>): (r: seq<Row>)
    ensures |r| == |likes| + |dislikes|
    ensures forall k :: 0 <= k < |r| ==>
              r[k] == if k < |likes| then Row(Answer, id, likes[k], LikeRow)
                      else Row(Answer, id, dislikes[k - |likes|], DislikeRow)
  {
    RowsOf(id, likes, LikeRow) + RowsOf(id, dislikes, DislikeRow)
  }

  /** Which of the new rows survive: every like ... */
  lemma NewLikesWin(rows: seq<Row>, id: Id, likes: seq<Id>, dislikes: seq<Id>, u: Id)
    requires forall r :: r in rows ==> !SameKey(r, Row(Answer, id, u, LikeRow))
    ensures Wins(rows, NewRows(id, likes, dislikes), Row(Answer, id, u, LikeRow)) <==> u in likes
  {
    var more, r := NewRows(id, likes, dislikes), Row(Answer, id, u, LikeRow);
    if u in likes {
      var k := FirstIndex(likes, u);
      assert more[k] == r && forall j :: 0 <= j < k ==> !SameKey(more[j], r);
    }
  }

  /** ... and the dislikes of users who are not liking. */
  lemma NewDislikesWin(rows: seq<Row>, id: Id, likes: seq<Id>, dislikes: seq<Id>, u: Id)
    requires forall r :: r in rows ==> !SameKey(r, Row(Answer, id, u, DislikeRow))
    ensures Wins(rows, NewRows(id, likes, dislikes), Row(Answer, id, u, DislikeRow)) <==> u in dislikes && u !in likes
  {
    var more, r := NewRows(id, likes, dislikes), Row(Answer, id, u, DislikeRow);
    if u in likes {
      var k := FirstIndex(likes, u);
      assert SameKey(more[k], r);
      assert forall i :: 0 <= i < |more| && more[i] == r ==> k < i;
    } else if u in dislikes {
      var k := FirstIndex(dislikes, u);
      assert more[|likes| + k] == r && forall j :: 0 <= j < |likes| + k ==> !SameKey(more[j], r);
    }
  }

  /** Reading back what was written: the likes as written, the dislikes less the likes, each user
      once; a list that was not named reads back empty; other contents are untouched. */
  lemma StoreMeaning(rows: seq<Row>, id: Id, p: Patch)
    requires UniqueKeys(rows) && (p.likes.Some? || p.dislikes.Some?)
    ensures var rows' := Store(rows, id, p);
            && UniqueKeys(rows')
            && NoDuplicates(Load(rows', id).likes) && NoDuplicates(Load(rows', id).dislikes)
            && (forall u :: u in Load(rows', id).likes <==> u in Named(p.likes))
            && (forall u :: u in Load(rows', id).dislikes <==> u in Named(p.dislikes) && u !in Named(p.likes))
            && (forall r: Row :: r.contentType != Answer || r.contentId != id ==> (r in rows' <==> r in rows))
  {
    var rows' := Store(rows, id, p);
    var kept := DeleteMany(rows, id);
    var more := NewRows(id, Named(p.likes), Named(p.dislikes));
    DeleteManyMeaning(rows, id);
    CreateManyMeaning(kept, more);
    UsersOfMeaning(rows', id, LikeRow);
    UsersOfMeaning(rows', id, DislikeRow);
    forall u
      ensures u in Load(rows', id).likes <==> u in Named(p.likes)
      ensures u in Load(rows', id).dislikes <==> u in Named(p.dislikes) && u !in Named(p.likes)
    {
      NewLikesWin(kept, id, Named(p.likes), Named(p.dislikes), u);
      NewDislikesWin(kept, id, Named(p.likes), Named(p.dislikes), u);
    }
    forall r: Row | r.contentType != Answer || r.contentId != id ensures r in rows' <==> r in rows {
      assert forall k :: 0 <= k < |more| ==> About(more[k], id);
    }
  }

  /** An update that names neither list touches no row. */
  lemma NothingNamed(rows: seq<Row>, id: Id, p: Patch)
    ensures p.likes == None && p.dislikes == None ==> Store(rows, id, p) == rows
  {
  }

  /** Writing both lists and reading them back is faithful exactly when the lists are disjoint. */
  lemma RoundTripIff(rows: seq<Row>, id: Id, r: Lists)
    requires UniqueKeys(rows)
    ensures var back := Load(Store(rows, id, Patch(Some(r.likes), Some(r.dislikes))), id);
            (forall u :: (u in back.likes <==> u in r.likes) && (u in back.dislikes <==> u in r.dislikes))
            <==> (forall u :: u in r.likes ==> u !in r.dislikes)
  {
    StoreMeaning(rows, id, Patch(Some(r.likes), Some(r.dislikes)));
  }

  // ---------------------------------------------------------------- the store against the machine

  /** One repository call on the store; a refused call writes nothing. */
  function StoreCall(rows: seq<Row>, id: Id, c: Call): seq<Row> {
    var plan := Plan(Load(rows, id), c);
    if plan.Ok? then Store(rows, id, plan.value) else rows
  }

  ghost predicate Agree(a: Lists, b: Lists) {
    forall u :: AttitudeOf(a, u) == AttitudeOf(b, u)
  }

  /** A successful undo must find the list it does not name already empty. */
  predicate Lossless(r: Lists, c: Call) {
    && (c.op == Unlike && c.user in r.likes ==> r.dislikes == [])
    && (c.op == UndoDislike && c.user in r.dislikes ==> r.likes == [])
  }

  lemma KeysIdentify(rows: seq<Row>)
    requires UniqueKeys(rows)
    ensures forall a, b :: a in rows && b in rows && SameKey(a, b) ==> a == b
  {
    forall a, b | a in rows && b in rows && SameKey(a, b) ensures a == b {
      var i :| 0 <= i < |rows| && rows[i] == a;
      var j :| 0 <= j < |rows| && rows[j] == b;
      assert i == j;
    }
  }

  lemma LoadIsValid(rows: seq<Row>, id: Id)
    requires UniqueKeys(rows)
    ensures Valid(Load(rows, id))
  {
    UsersOfMeaning(rows, id, LikeRow);
    UsersOfMeaning(rows, id, DislikeRow);
    KeysIdentify(rows);
    forall u | u in Load(rows, id).likes ensures u !in Load(rows, id).dislikes {
      var liked, disliked := Row(Answer, id, u, LikeRow), Row(Answer, id, u, DislikeRow);
      assert SameKey(liked, disliked) && liked != disliked;
    }
  }

  lemma WrittenBack(rows: seq<Row>, id: Id, p: Patch)
    requires UniqueKeys(rows) && (p.likes.Some? || p.dislikes.Some?)
    ensures UniqueKeys(Store(rows, id, p))
    ensures Agree(Load(Store(rows, id, p), id), Lists(Named(p.likes), Named(p.dislikes)))
  {
    StoreMeaning(rows, id, p);
  }

  lemma LosslessIff(r: Lists, c: Call)
    requires Valid(r) && Plan(r, c).Ok?
    ensures var p := Plan(r, c).value;
            Agree(Lists(Named(p.likes), Named(p.dislikes)), Merge(r, p)) <==> Lossless(r, c)
  {
    var p := Plan(r, c).value;
    var back, after := Lists(Named(p.likes), Named(p.dislikes)), Merge(r, p);
    if c.op == Unlike && r.dislikes != [] {
      assert AttitudeOf(after, r.dislikes[0]) == Dislikes && AttitudeOf(back, r.dislikes[0]) == Neutral;
    } else if c.op == UndoDislike && r.likes != [] {
      assert AttitudeOf(after, r.likes[0]) == Likes && AttitudeOf(back, r.likes[0]) != Likes;
    } else {
      assert back == after;
    }
  }

  /** A call on the store does what the in-memory machine does if and only if it is lossless. */
  lemma StoreRefinesIff(rows: seq<Row>, id: Id, c: Call)
    requires UniqueKeys(rows)
    ensures var r := Load(rows, id);
            var after := if Apply(r, c).Ok? then Apply(r, c).value else r;
            && UniqueKeys(StoreCall(rows, id, c))
            && (Agree(Load(StoreCall(rows, id, c), id), after) <==> Lossless(r, c))
  {
    var r := Load(rows, id);
    LoadIsValid(rows, id);
    var plan := Plan(r, c);
    if plan.Ok? {
      WrittenBack(rows, id, plan.value);
      LosslessIff(r, c);
      var back, written := Load(Store(rows, id, plan.value), id), Lists(Named(plan.value.likes), Named(plan.value.dislikes));
      assert forall u :: AttitudeOf(back, u) == AttitudeOf(written, u);
    }
  }

  ghost predicate AgreeThroughout(rows: seq<Row>, id: Id, r: Lists, calls: seq<Call>)
    decreases |calls|
  {
    && Agree(Load(rows, id), r)
    && (calls != [] ==> AgreeThroughout(StoreCall(rows, id, calls[0]), id, Run(r, calls[..1]), calls[1..]))
  }

  predicate LosslessThroughout(r: Lists, calls: seq<Call>)
    decreases |calls|
  {
    if calls == [] then true else Lossless(r, calls[0]) && LosslessThroughout(Run(r, calls[..1]), calls[1..])
  }

  lemma AgreeingListsStep(a: Lists, b: Lists, c: Call)
    requires Valid(a) && Valid(b) && Agree(a, b)
    ensures Lossless(a, c) <==> Lossless(b, c)
    ensures var a' := if Apply(a, c).Ok? then Apply(a, c).value else a;
            var b' := if Apply(b, c).Ok? then Apply(b, c).value else b;
            Valid(b') && Agree(a', b')
  {
    ApplyRefines(a, c);
    ApplyRefines(b, c);
    assert AttitudeOf(a, c.user) == AttitudeOf(b, c.user);
    SameEmptiness(a, b);
  }

  lemma SameEmptiness(a: Lists, b: Lists)
    requires Valid(a) && Valid(b) && Agree(a, b)
    ensures a.likes == [] <==> b.likes == []
    ensures a.dislikes == [] <==> b.dislikes == []
  {
    if a.likes != [] { assert AttitudeOf(b, a.likes[0]) == AttitudeOf(a, a.likes[0]); }
    if b.likes != [] { assert AttitudeOf(a, b.likes[0]) == AttitudeOf(b, b.likes[0]); }
    if a.dislikes != [] { assert AttitudeOf(b, a.dislikes[0]) == AttitudeOf(a, a.dislikes[0]); }
    if b.dislikes != [] { assert AttitudeOf(a, b.dislikes[0]) == AttitudeOf(b, b.dislikes[0]); }
  }

  /** Over a whole run the PostgreSQL store and the in-memory machine agree after every call exactly
      when every successful unlike met no dislikes and every successful undo met no likes. */
  lemma {:induction false} StoreRunRefinesIff(rows: seq<Row>, id: Id, r: Lists, calls: seq<Call>)
    requires UniqueKeys(rows) && Valid(r) && Agree(Load(rows, id), r)
    ensures AgreeThroughout(rows, id, r, calls) <==> LosslessThroughout(r, calls)
    decreases |calls|
  {
    if calls != [] {
      var c, stored := calls[0], Load(rows, id);
      var r' := if Apply(r, c).Ok? then Apply(r, c).value else r;
      assert calls[..1][1..] == [] && Run(r, calls[..1]) == r';
      LoadIsValid(rows, id);
      StoreRefinesIff(rows, id, c);
      AgreeingListsStep(stored, r, c);
      if Lossless(r, c) {
        StoreRunRefinesIff(StoreCall(rows, id, c), id, r', calls[1..]);
      }
    }
  }

  // ---------------------------------------------------------------- between the delete and the create

  lemma EmptyIff(s: seq<Id>)
    ensures s == [] <==> forall u :: u !in s
  {
    if s != [] { assert s[0] in s; }
  }

  /** An update cut off after its delete has lost every reaction to its answer, and nothing else. */
  lemma CutOffUpdateErases(rows: seq<Row>, id: Id)
    ensures Load(DeleteMany(rows, id), id) == Lists([], [])
    ensures forall r: Row :: r.contentType != Answer || r.contentId != id ==> (r in DeleteMany(rows, id) <==> r in rows)
  {
    var kept := DeleteMany(rows, id);
    DeleteManyMeaning(rows, id);
    UsersOfMeaning(kept, id, LikeRow);
    UsersOfMeaning(kept, id, DislikeRow);
    EmptyIff(Load(kept, id).likes);
    EmptyIff(Load(kept, id).dislikes);
  }

  datatype StoreStep = Delete(id: Id) | Create(id: Id, patch: Patch)

  function Perform(rows: seq<Row>, steps: seq<StoreStep>): seq<Row>
    decreases |steps|
  {
    if steps == [] then rows
    else
      var next := match steps[0] case Delete(id) => DeleteMany(rows, id) case Create(id, p) => Fill(rows, id, p);
      Perform(next, steps[1..])
  }

  /** However the two halves of any number of updates interleave, no answer ever reads back with a
      user twice or on both sides: unlike the documents, the rows cannot hold that. */
  lemma {:induction false} EveryInterleavingReadsValid(rows: seq<Row>, steps: seq<StoreStep>, id: Id)
    requires UniqueKeys(rows)
    ensures Valid(Load(Perform(rows, steps), id))
    decreases |steps|
  {
    if steps == [] {
      LoadIsValid(rows, id);
    } else {
      match steps[0] {
        case Delete(i) =>
          DeleteManyMeaning(rows, i);
          EveryInterleavingReadsValid(DeleteMany(rows, i), steps[1..], id);
        case Create(i, p) =>
          CreateManyMeaning(rows, NewRows(i, Named(p.likes), Named(p.dislikes)));
          EveryInterleavingReadsValid(Fill(rows, i, p), steps[1..], id);
      }
    }
  }

  lemma AttitudeOfRows(rows: seq<Row>, id: Id, u: Id)
    ensures AttitudeOf(Load(rows, id), u)
            == if Row(Answer, id, u, LikeRow) in rows then Likes
               else if Row(Answer, id, u, DislikeRow) in rows then Dislikes else Neutral
  {
    UsersOfMeaning(rows, id, LikeRow);
    UsersOfMeaning(rows, id, DislikeRow);
  }

  /** What a create adds to rows that may already hold reactions: only users without one are given
      the attitude it names. */
  lemma FillMeaning(rows: seq<Row>, id: Id, p: Patch, u: Id)
    requires UniqueKeys(rows)
    ensures UniqueKeys(Fill(rows, id, p))
    ensures AttitudeOf(Load(Fill(rows, id, p), id), u)
            == if AttitudeOf(Load(rows, id), u) != Neutral then AttitudeOf(Load(rows, id), u)
               else AttitudeOf(Lists(Named(p.likes), Named(p.dislikes)), u)
  {
    var likes, dislikes := Named(p.likes), Named(p.dislikes);
    var liked, disliked := Row(Answer, id, u, LikeRow), Row(Answer, id, u, DislikeRow);
    var more := NewRows(id, likes, dislikes);
    CreateManyMeaning(rows, more);
    AttitudeOfRows(rows, id, u);
    AttitudeOfRows(Fill(rows, id, p), id, u);
    if liked in rows || disliked in rows {
      KeysIdentify(rows);
      assert SameKey(liked, disliked);
      assert Wins(rows, more, liked) <==> liked in rows;
      assert Wins(rows, more, disliked) <==> disliked in rows;
    } else {
      forall r | r in rows ensures !SameKey(r, liked) && !SameKey(r, disliked) {
        assert r.kind == LikeRow || r.kind == DislikeRow;
      }
      NewLikesWin(rows, id, likes, dislikes, u);
      NewDislikesWin(rows, id, likes, dislikes, u);
    }
  }

  /** Two updates of one answer that both delete before either creates: user by user the first to
      create wins, and the second is what reads back exactly when they disagree about nobody the
      first one names. */
  lemma OverlappingUpdatesIff(rows: seq<Row>, id: Id, p: Patch, q: Patch)
    requires UniqueKeys(rows)
    ensures var first, second := Lists(Named(p.likes), Named(p.dislikes)), Lists(Named(q.likes), Named(q.dislikes));
            var back := Load(Perform(rows, [Delete(id), Delete(id), Create(id, p), Create(id, q)]), id);
            && (forall u :: AttitudeOf(back, u) == if AttitudeOf(first, u) != Neutral then AttitudeOf(first, u)
                                                   else AttitudeOf(second, u))
            && (Agree(back, second)
                <==> forall u :: AttitudeOf(first, u) != Neutral ==> AttitudeOf(first, u) == AttitudeOf(second, u))
  {
    var first, second := Lists(Named(p.likes), Named(p.dislikes)), Lists(Named(q.likes), Named(q.dislikes));
    var kept := DeleteMany(DeleteMany(rows, id), id);
    var after := Fill(Fill(kept, id, p), id, q);
    FourSteps(rows, id, p, q);
    DeleteManyMeaning(rows, id);
    DeleteManyMeaning(DeleteMany(rows, id), id);
    CutOffUpdateErases(DeleteMany(rows, id), id);
    forall u
      ensures AttitudeOf(Load(after, id), u) == if AttitudeOf(first, u) != Neutral then AttitudeOf(first, u)
                                                else AttitudeOf(second, u)
    {
      FillMeaning(kept, id, p, u);
      FillMeaning(Fill(kept, id, p), id, q, u);
    }
  }

  lemma FourSteps(rows: seq<Row>, id: Id, p: Patch, q: Patch)
    ensures Perform(rows, [Delete(id), Delete(id), Create(id, p), Create(id, q)])
            == Fill(Fill(DeleteMany(DeleteMany(rows, id), id), id, p), id, q)
  {
    var steps := [Delete(id), Delete(id), Create(id, p), Create(id, q)];
    assert steps[1..][1..] == steps[2..] && steps[2..][1..] == steps[3..] && steps[3..][1..] == [];
    var r1 := DeleteMany(rows, id);
    var r2 := DeleteMany(r1, id);
    assert Perform(r2, steps[2..]) == Perform(Fill(r2, id, p), steps[3..]);
    assert Perform(r1, steps[1..]) == Perform(r2, steps[2..]);
  }
}
