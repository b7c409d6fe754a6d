/** The like/dislike machine shared by answers and questions (repositories/AnswerRepository.ts,
    repositories/QuestionRepository.ts). A call reads the document, decides on a patch and writes
    it; a patch may name one list only, and the store keeps the list it does not name. */
module Reactions {
  import opened IdLists
  import opened Optional

  datatype Error = NotFound | AlreadyReacted | NotReacted
  datatype Result<+T> = Ok(value: T) | Err(error: Error)

  datatype Lists = Lists(likes: seq<Id>, dislikes: seq<Id>)
  datatype Patch = Patch(likes: Option<seq<Id>>, dislikes: Option<seq<Id>>)
  datatype Op = Like | Unlike | Dislike | UndoDislike
  datatype Call = Call(op: Op, user: Id)
  datatype Attitude = Neutral | Likes | Dislikes

  /** What a call decides to write, from the document it read. */
  function Plan(r: Lists, c: Call): Result<Patch> {
    match c.op
    case Like =>
      if c.user in r.likes then Err(AlreadyReacted)
      else Ok(Patch(Some(r.likes + [c.user]),
                    Some(if c.user in r.dislikes then Remove(r.dislikes, c.user) else r.dislikes)))
    case Unlike =>
      if c.user !in r.likes then Err(NotReacted)
      else Ok(Patch(Some(Remove(r.likes, c.user)), None))
    case Dislike =>
      if c.user in r.dislikes then Err(AlreadyReacted)
      else Ok(Patch(Some(if c.user in r.likes then Remove(r.likes, c.user) else r.likes),
                    Some(r.dislikes + [c.user])))
    case UndoDislike =>
      if c.user !in r.dislikes then Err(NotReacted)
      else Ok(Patch(None, Some(Remove(r.dislikes, c.user))))
  }

  /** A partial update: the list the patch does not name is kept. */
  function Merge(r: Lists, p: Patch): Lists {
    Lists(if p.likes.Some? then p.likes.value else r.likes,
          if p.dislikes.Some? then p.dislikes.value else r.dislikes)
  }

  function Apply(r: Lists, c: Call): Result<Lists> {
    match Plan(r, c)
    case Ok(p) => Ok(Merge(r, p))
    case Err(e) => Err(e)
  }

  function Run(r: Lists, calls: seq<Call>): Lists
    decreases |calls|
  {
    if calls == [] then r
    else Run(if Apply(r, calls[0]).Ok? then Apply(r, calls[0]).value else r, calls[1..])
  }

  // ---------------------------------------------------------------- the class

  class ReactionRepository {
    var documents: map<Id, Lists>

    constructor ()
      ensures documents == map[]
    {
      documents := map[];
    }

    predicate Outcome(before: map<Id, Lists>, id: Id, c: Call, r: Result<Lists>)
      reads this
    {
      if id !in before then r == Err(NotFound) && documents == before
      else
        && r == Apply(before[id], c)
        && documents == if r.Ok? then before[id := r.value] else before
    }

    method Update(id: Id, likes: Option<seq<Id>>, dislikes: Option<seq<Id>>) returns (r: Lists)
      requires id in documents
      modifies this
      ensures documents == old(documents)[id := Merge(old(documents)[id], Patch(likes, dislikes))]
      ensures r == documents[id]
    {
      r := documents[id];
      if likes.Some? { r := r.(likes := likes.value); }
      if dislikes.Some? { r := r.(dislikes := dislikes.value); }
      documents := documents[id := r];
    }

    method LikeContent(id: Id, user: Id) returns (r: Result<Lists>)
      modifies this
      ensures Outcome(old(documents), id, Call(Like, user), r)
    {
      if id !in documents { return Err(NotFound); }
      var answer := documents[id];
      if user in answer.likes { return Err(AlreadyReacted); }
      if user in answer.dislikes {
        answer := answer.(dislikes := Remove(answer.dislikes, user));
      }
      answer := answer.(likes := answer.likes + [user]);
      var updated := Update(id, Some(answer.likes), Some(answer.dislikes));
      return Ok(updated);
    }

    method UnlikeContent(id: Id, user: Id) returns (r: Result<Lists>)
      modifies this
      ensures Outcome(old(documents), id, Call(Unlike, user), r)
    {
      if id !in documents { return Err(NotFound); }
      var answer := documents[id];
      if user !in answer.likes { return Err(NotReacted); }
      answer := answer.(likes := Remove(answer.likes, user));
      var updated := Update(id, Some(answer.likes), None);
      return Ok(updated);
    }

    method DislikeContent(id: Id, user: Id) returns (r: Result<Lists>)
      modifies this
      ensures Outcome(old(documents), id, Call(Dislike, user), r)
    {
      if id !in documents { return Err(NotFound); }
      var answer := documents[id];
      if user in answer.dislikes { return Err(AlreadyReacted); }
      if user in answer.likes {
        answer := answer.(likes := Remove(answer.likes, user));
      }
      answer := answer.(dislikes := answer.dislikes + [user]);
      var updated := Update(id, Some(answer.likes), Some(answer.dislikes));
      return Ok(updated);
    }

    method UndoDislikeContent(id: Id, user: Id) returns (r: Result<Lists>)
      modifies this
      ensures Outcome(old(documents), id, Call(UndoDislike, user), r)
    {
      if id !in documents { return Err(NotFound); }
      var answer := documents[id];
      if user !in answer.dislikes { return Err(NotReacted); }
      answer := answer.(dislikes := Remove(answer.dislikes, user));
      var updated := Update(id, None, Some(answer.dislikes));
      return Ok(updated);
    }
  }

  // ---------------------------------------------------------------- refinement

  predicate Valid(r: Lists) {
    && NoDuplicates(r.likes)
    && NoDuplicates(r.dislikes)
    && forall x :: x in r.likes ==> x !in r.dislikes
  }

  function AttitudeOf(r: Lists, user: Id): Attitude {
    if user in r.likes then Likes else if user in r.dislikes then Dislikes else Neutral
  }

  /** The specification: what a call does to the acting user's attitude. */
  function Next(a: Attitude, op: Op): Result<Attitude> {
    match op
    case Like => if a == Likes then Err(AlreadyReacted) else Ok(Likes)
    case Unlike => if a == Likes then Ok(Neutral) else Err(NotReacted)
    case Dislike => if a == Dislikes then Err(AlreadyReacted) else Ok(Dislikes)
    case UndoDislike => if a == Dislikes then Ok(Neutral) else Err(NotReacted)
  }

  /** What a history does to one user: only that user's own calls count, and failed ones do nothing. */
  function Follow(a: Attitude, calls: seq<Call>, user: Id): Attitude
    decreases |calls|
  {
    if calls == [] then a
    else if calls[0].user == user && Next(a, calls[0].op).Ok? then
      Follow(Next(a, calls[0].op).value, calls[1..], user)
    else
      Follow(a, calls[1..], user)
  }

  /** `u` has moved to attitude `a`; every other user's attitude and place in the lists is as it was. */
  ghost predicate Moved(r: Lists, r': Lists, u: Id, a: Attitude) {
    && Valid(r')
    && AttitudeOf(r', u) == a
    && (forall v :: v != u ==> AttitudeOf(r', v) == AttitudeOf(r, v))
    && Remove(r'.likes, u) == Remove(r.likes, u)
    && Remove(r'.dislikes, u) == Remove(r.dislikes, u)
  }

  /** One call refines the specification, errors included, keeps the lists disjoint and
      duplicate-free, and changes nothing for anybody else. */
  lemma ApplyRefines(r: Lists, c: Call)
    requires Valid(r)
    ensures match Next(AttitudeOf(r, c.user), c.op)
            case Err(e) => Apply(r, c) == Err(e)
            case Ok(a) => Apply(r, c).Ok? && Moved(r, Apply(r, c).value, c.user, a)
  {
    match c.op
    case Like => if c.user !in r.likes { LikeRefines(r, c.user); }
    case Dislike => if c.user !in r.dislikes { DislikeRefines(r, c.user); }
    case Unlike => if c.user in r.likes { UnlikeRefines(r, c.user); }
    case UndoDislike => if c.user in r.dislikes { UndoRefines(r, c.user); }
  }

  lemma UnlikeRefines(r: Lists, u: Id)
    requires Valid(r) && u in r.likes
    ensures Apply(r, Call(Unlike, u)).Ok? && Moved(r, Apply(r, Call(Unlike, u)).value, u, Neutral)
  {
    Leaves(r.likes, u);
    assert Apply(r, Call(Unlike, u)) == Ok(Lists(Remove(r.likes, u), r.dislikes));
    assert u !in r.dislikes;
  }

  lemma UndoRefines(r: Lists, u: Id)
    requires Valid(r) && u in r.dislikes
    ensures Apply(r, Call(UndoDislike, u)).Ok? && Moved(r, Apply(r, Call(UndoDislike, u)).value, u, Neutral)
  {
    Leaves(r.dislikes, u);
    assert Apply(r, Call(UndoDislike, u)) == Ok(Lists(r.likes, Remove(r.dislikes, u)));
    assert u !in r.likes;
  }

  lemma LikeRefines(r: Lists, u: Id)
    requires Valid(r) && u !in r.likes
    ensures Apply(r, Call(Like, u)).Ok? && Moved(r, Apply(r, Call(Like, u)).value, u, Likes)
  {
    Moves(r.likes, r.dislikes, u);
    if u !in r.dislikes { RemoveAbsent(r.dislikes, u); }
  }

  lemma DislikeRefines(r: Lists, u: Id)
    requires Valid(r) && u !in r.dislikes
    ensures Apply(r, Call(Dislike, u)).Ok? && Moved(r, Apply(r, Call(Dislike, u)).value, u, Dislikes)
  {
    Moves(r.dislikes, r.likes, u);
    if u !in r.likes { RemoveAbsent(r.likes, u); }
  }

  lemma Leaves(s: seq<Id>, x: Id)
    requires NoDuplicates(s)
    ensures NoDuplicates(Remove(s, x)) && Remove(Remove(s, x), x) == Remove(s, x)
  {
    RemoveKeeps(s, x);
    RemoveAbsent(Remove(s, x), x);
  }

  lemma Moves(to: seq<Id>, from: seq<Id>, x: Id)
    requires NoDuplicates(to) && NoDuplicates(from) && x !in to
    ensures NoDuplicates(to + [x]) && Remove(to + [x], x) == Remove(to, x)
    ensures NoDuplicates(Remove(from, x)) && Remove(Remove(from, x), x) == Remove(from, x)
  {
    Leaves(from, x);
    AppendKeeps(to, x);
    RemoveAppended(to, x);
  }

  /** Over every run of calls by any users the lists refine a map from user to attitude. */
  lemma {:induction false} RunRefines(r: Lists, calls: seq<Call>)
    requires Valid(r)
    ensures Valid(Run(r, calls))
    ensures forall v :: AttitudeOf(Run(r, calls), v) == Follow(AttitudeOf(r, v), calls, v)
    decreases |calls|
  {
    if calls != [] {
      ApplyRefines(r, calls[0]);
      RunRefines(if Apply(r, calls[0]).Ok? then Apply(r, calls[0]).value else r, calls[1..]);
    }
  }

  // ---------------------------------------------------------------- interleaved calls

  /** A call that has read but not yet written, and the lists it read. */
  datatype Waiting = Waiting(call: Call, read: Lists)
  datatype Shared = Shared(lists: Lists, pending: seq<Waiting>)
  datatype Step = Read(call: Call) | Write(index: nat)

  function PatchOf(w: Waiting): Patch {
    if Plan(w.read, w.call).Ok? then Plan(w.read, w.call).value else Patch(None, None)
  }

  function Interleave(s: Shared, steps: seq<Step>): Shared
    decreases |steps|
  {
    if steps == [] then s else Interleave(Advance(s, steps[0]), steps[1..])
  }

  function Advance(s: Shared, step: Step): Shared {
    match step
    case Read(c) => if Plan(s.lists, c).Ok? then s.(pending := s.pending + [Waiting(c, s.lists)]) else s
    case Write(i) =>
      if i < |s.pending| then Shared(Merge(s.lists, PatchOf(s.pending[i])), s.pending[..i] + s.pending[i + 1..]) else s
  }

  predicate NoRepeats(r: Lists) {
    NoDuplicates(r.likes) && NoDuplicates(r.dislikes)
  }

  predicate Clean(s: Shared) {
    NoRepeats(s.lists) && forall k :: 0 <= k < |s.pending| ==> NoRepeats(s.pending[k].read)
  }

  lemma MergeIsClean(now: Lists, w: Waiting)
    requires NoRepeats(now) && NoRepeats(w.read)
    ensures NoRepeats(Merge(now, PatchOf(w)))
  {
    var r, u := w.read, w.call.user;
    RemoveKeeps(r.likes, u);
    RemoveKeeps(r.dislikes, u);
    if u !in r.likes { AppendKeeps(r.likes, u); }
    if u !in r.dislikes { AppendKeeps(r.dislikes, u); }
  }

  /** However calls interleave at their await, no list ever holds a user twice. */
  lemma {:induction false} InterleavingKeepsListsClean(s: Shared, steps: seq<Step>)
    requires Clean(s)
    ensures Clean(Interleave(s, steps))
    decreases |steps|
  {
    if steps != [] {
      if steps[0].Write? && steps[0].index < |s.pending| { MergeIsClean(s.lists, s.pending[steps[0].index]); }
      InterleavingKeepsListsClean(Advance(s, steps[0]), steps[1..]);
    }
  }

  /** Somebody else was on the list the call took its user off, and is on the other list now. */
  predicate SwitchedSince(read: Lists, now: Lists, c: Call) {
    || (c.op == Unlike && exists v :: v in read.likes && v != c.user && v in now.dislikes)
    || (c.op == UndoDislike && exists v :: v in read.dislikes && v != c.user && v in now.likes)
  }

  /** A call that read valid lists and writes when they may have changed leaves valid lists exactly when
      nobody but its user has switched sides, towards the list it does not name, since it read. So
      likes and dislikes never do harm; an unlike does when someone else's dislike comes between. */
  lemma LateWriteIsValidIff(read: Lists, now: Lists, c: Call)
    requires Valid(read) && Valid(now) && Plan(read, c).Ok?
    ensures Valid(Merge(now, Plan(read, c).value)) <==> !SwitchedSince(read, now, c)
  {
    MergeIsClean(now, Waiting(c, read));
    if c.op == Like || c.op == Dislike {
      ApplyRefines(read, c);
      assert Merge(now, Plan(read, c).value) == Merge(read, Plan(read, c).value);
    }
  }

  ghost predicate AllReadValid(pending: seq<Waiting>) {
    forall k :: 0 <= k < |pending| ==> Valid(pending[k].read) && Plan(pending[k].read, pending[k].call).Ok?
  }

  ghost predicate AlwaysValid(s: Shared, steps: seq<Step>)
    decreases |steps|
  {
    Valid(s.lists) && (steps != [] ==> AlwaysValid(Advance(s, steps[0]), steps[1..]))
  }

  predicate NobodySwitches(s: Shared, steps: seq<Step>)
    decreases |steps|
  {
    if steps == [] then true else
      && (steps[0].Write? && steps[0].index < |s.pending| ==>
            var w := s.pending[steps[0].index]; !SwitchedSince(w.read, s.lists, w.call))
      && NobodySwitches(Advance(s, steps[0]), steps[1..])
  }

  /** However calls interleave, the lists are valid after every step exactly when, at every write,
      nobody else has switched sides since that call read. */
  lemma {:induction false} InterleavingValidIff(s: Shared, steps: seq<Step>)
    requires Valid(s.lists) && AllReadValid(s.pending)
    ensures AlwaysValid(s, steps) <==> NobodySwitches(s, steps)
    decreases |steps|
  {
    if steps != [] {
      var next := Advance(s, steps[0]);
      if steps[0].Write? && steps[0].index < |s.pending| {
        var w := s.pending[steps[0].index];
        LateWriteIsValidIff(w.read, s.lists, w.call);
      }
      if Valid(next.lists) {
        InterleavingValidIff(next, steps[1..]);
      }
    }
  }

  predicate Toggles(c: Call) {
    c.op == Like || c.op == Dislike
  }

  lemma {:induction false} TogglesNeverSwitch(s: Shared, steps: seq<Step>)
    requires forall k :: 0 <= k < |steps| && steps[k].Read? ==> Toggles(steps[k].call)
    requires forall k :: 0 <= k < |s.pending| ==> Toggles(s.pending[k].call)
    ensures NobodySwitches(s, steps)
    decreases |steps|
  {
    if steps != [] {
      assert steps[0].Read? ==> Toggles(steps[0].call);
      assert forall k :: 0 <= k < |steps[1..]| ==> steps[1..][k] == steps[k + 1];
      TogglesNeverSwitch(Advance(s, steps[0]), steps[1..]);
    }
  }

  /** Likes and dislikes alone keep the lists valid in every interleaving. */
  lemma LikesAndDislikesInterleave(r: Lists, steps: seq<Step>)
    requires Valid(r) && forall k :: 0 <= k < |steps| && steps[k].Read? ==> Toggles(steps[k].call)
    ensures AlwaysValid(Shared(r, []), steps)
  {
    TogglesNeverSwitch(Shared(r, []), steps);
    InterleavingValidIff(Shared(r, []), steps);
  }

  // ---------------------------------------------------------------- two overlapping calls

  predicate ChangesLikes(r: Lists, c: Call) {
    c.op == Like || c.op == Unlike || (c.op == Dislike && c.user in r.likes)
  }

  predicate ChangesDislikes(r: Lists, c: Call) {
    c.op == Dislike || c.op == UndoDislike || (c.op == Like && c.user in r.dislikes)
  }

  /** `d` writes a list that `c` changes. */
  predicate Collide(r: Lists, c: Call, d: Call) {
    (ChangesLikes(r, c) && d.op != UndoDislike) || (ChangesDislikes(r, c) && d.op != Unlike)
  }

  /** The lists when both calls read `r` and then `c` writes before `d`. */
  function Overlapped(r: Lists, c: Call, d: Call): Lists
    requires Plan(r, c).Ok? && Plan(r, d).Ok?
  {
    Merge(Merge(r, Plan(r, c).value), Plan(r, d).value)
  }

  lemma OverlappedIsInterleaving(r: Lists, c: Call, d: Call)
    requires Plan(r, c).Ok? && Plan(r, d).Ok?
    ensures Interleave(Shared(r, []), [Read(c), Read(d), Write(0), Write(0)]).lists == Overlapped(r, c, d)
  {
    var steps := [Read(c), Read(d), Write(0), Write(0)];
    assert steps[1..][1..] == steps[2..] && steps[2..][1..] == steps[3..] && steps[3..][1..] == [];
    var p, q := Waiting(c, r), Waiting(d, r);
    var s1, s2 := Shared(r, [p]), Shared(r, [p, q]);
    var s3 := Shared(Merge(r, PatchOf(p)), [q]);
    assert Advance(Shared(r, []), Read(c)) == s1;
    assert Advance(s1, Read(d)) == s2 by { assert [p] + [q] == [p, q]; }
    assert Advance(s2, Write(0)) == s3 by { assert [p, q][..0] + [p, q][1..] == [q]; }
    assert Interleave(s3, steps[3..]) == Advance(s3, Write(0));
    assert Interleave(s2, steps[2..]) == Interleave(s3, steps[3..]);
    assert Interleave(s1, steps[1..]) == Interleave(s2, steps[2..]);
  }

  /** An accepted call changes its user's attitude. */
  lemma AcceptedMoves(r: Lists, c: Call)
    requires Valid(r) && Plan(r, c).Ok?
    ensures var a := AttitudeOf(r, c.user); Next(a, c.op).Ok? && Next(a, c.op).value != a
  {
    ApplyRefines(r, c);
  }

  /** A like or dislike writes both lists as if the other call had not been. */
  lemma ToggleWritesLast(r: Lists, c: Call, d: Call)
    requires Valid(r) && Plan(r, c).Ok? && Plan(r, d).Ok? && Toggles(d)
    ensures Apply(r, d) == Ok(Overlapped(r, c, d)) && Collide(r, c, d)
  {
  }

  /** The user is on exactly the list of that attitude. */
  predicate Stands(l: Lists, u: Id, a: Attitude) {
    (u in l.likes <==> a == Likes) && (u in l.dislikes <==> a == Dislikes)
  }

  /** What the call makes of its user's place on each list. */
  predicate PutsOnLikes(r: Lists, c: Call) {
    c.op == Like || (c.op == UndoDislike && c.user in r.likes)
  }

  predicate PutsOnDislikes(r: Lists, c: Call) {
    c.op == Dislike || (c.op == Unlike && c.user in r.dislikes)
  }

  lemma UnderUndoIff(r: Lists, c: Call, d: Call, l: Lists)
    requires Valid(r) && Next(AttitudeOf(r, c.user), c.op).Ok? && c.user != d.user && !Toggles(d)
    requires d.op == Unlike
             ==> (c.user in l.likes <==> c.user in r.likes) && (c.user in l.dislikes <==> PutsOnDislikes(r, c))
    requires d.op == UndoDislike
             ==> (c.user in l.dislikes <==> c.user in r.dislikes) && (c.user in l.likes <==> PutsOnLikes(r, c))
    ensures Stands(l, c.user, Next(AttitudeOf(r, c.user), c.op).value) <==> !Collide(r, c, d)
  {
  }

  lemma UnlikeLast(r: Lists, c: Call, d: Call)
    requires Valid(r) && Plan(r, c).Ok? && Plan(r, d).Ok? && d.op == Unlike && c.user != d.user
    ensures Stands(Overlapped(r, c, d), d.user, Neutral)
    ensures var l := Overlapped(r, c, d);
            (c.user in l.likes <==> c.user in r.likes) && (c.user in l.dislikes <==> PutsOnDislikes(r, c))
  {
    var l := Overlapped(r, c, d);
    assert l.likes == Remove(r.likes, d.user) && l.dislikes == Merge(r, Plan(r, c).value).dislikes;
    match c.op
    case Like =>
    case Unlike =>
    case Dislike =>
    case UndoDislike =>
  }

  lemma UndoDislikeLast(r: Lists, c: Call, d: Call)
    requires Valid(r) && Plan(r, c).Ok? && Plan(r, d).Ok? && d.op == UndoDislike && c.user != d.user
    ensures Stands(Overlapped(r, c, d), d.user, Neutral)
    ensures var l := Overlapped(r, c, d);
            (c.user in l.dislikes <==> c.user in r.dislikes) && (c.user in l.likes <==> PutsOnLikes(r, c))
  {
    var l := Overlapped(r, c, d);
    assert l.dislikes == Remove(r.dislikes, d.user) && l.likes == Merge(r, Plan(r, c).value).likes;
    match c.op
    case Like =>
    case Unlike =>
    case Dislike =>
    case UndoDislike =>
  }

  /** Of two users' overlapping calls the one that writes last always takes effect. The other does
      exactly when the last does not write a list it changes: a like or dislike erases any call it
      overlaps, an unlike all but an undone dislike and the dislike of someone who did not like, and
      the other way round. */
  lemma OverlappingCallsIff(r: Lists, c: Call, d: Call)
    requires Valid(r) && Plan(r, c).Ok? && Plan(r, d).Ok?
    ensures Next(AttitudeOf(r, c.user), c.op).Ok? && Next(AttitudeOf(r, d.user), d.op).Ok?
    ensures c.user != d.user ==>
              Stands(Overlapped(r, c, d), d.user, Next(AttitudeOf(r, d.user), d.op).value)
    ensures c.user != d.user ==>
              (Stands(Overlapped(r, c, d), c.user, Next(AttitudeOf(r, c.user), c.op).value) <==> !Collide(r, c, d))
  {
    AcceptedMoves(r, c);
    AcceptedMoves(r, d);
    if Toggles(d) {
      ToggleWritesLast(r, c, d);
      ApplyRefines(r, d);
    } else if c.user != d.user {
      assert AttitudeOf(r, d.user) == if d.op == Unlike then Likes else Dislikes;
      if d.op == Unlike { UnlikeLast(r, c, d); } else { UndoDislikeLast(r, c, d); }
      UnderUndoIff(r, c, d, Overlapped(r, c, d));
    }
  }

  function After(r: Lists, c: Call): Lists {
    if Apply(r, c).Ok? then Apply(r, c).value else r
  }

  /** Then, and when both are one user's, the lists are those of the two calls one after the other;
      otherwise they are those of neither order. */
  lemma OverlapIsSerialIff(r: Lists, c: Call, d: Call)
    requires Valid(r) && Plan(r, c).Ok? && Plan(r, d).Ok?
    ensures Interleave(Shared(r, []), [Read(c), Read(d), Write(0), Write(0)]).lists == Overlapped(r, c, d)
    ensures Overlapped(r, c, d) == After(After(r, c), d) || Overlapped(r, c, d) == After(After(r, d), c)
            <==> c.user == d.user || !Collide(r, c, d)
    ensures c.user == d.user || !Collide(r, c, d) ==> Overlapped(r, c, d) == After(After(r, c), d)
  {
    OverlappedIsInterleaving(r, c, d);
    if c.user == d.user {
      SameUserIsSerial(r, c, d);
    } else {
      OverlappingCallsIff(r, c, d);
      SerialStands(r, c, d);
      LastStands(r, d, c);
      if !Collide(r, c, d) { ApartIsSerial(r, c, d); }
    }
  }

  lemma LastStands(r: Lists, c: Call, d: Call)
    requires Valid(r) && Plan(r, d).Ok? && c.user != d.user
    ensures Next(AttitudeOf(r, d.user), d.op).Ok?
    ensures Stands(After(After(r, c), d), d.user, Next(AttitudeOf(r, d.user), d.op).value)
  {
    ApplyRefines(r, d);
    ApplyRefines(r, c);
    ApplyRefines(After(r, c), d);
    ValidStands(After(After(r, c), d), d.user);
  }

  lemma SerialStands(r: Lists, c: Call, d: Call)
    requires Valid(r) && Plan(r, c).Ok? && c.user != d.user
    ensures Next(AttitudeOf(r, c.user), c.op).Ok?
    ensures Stands(After(After(r, c), d), c.user, Next(AttitudeOf(r, c.user), c.op).value)
  {
    ApplyRefines(r, c);
    ApplyRefines(After(r, c), d);
    ValidStands(After(After(r, c), d), c.user);
  }

  lemma ValidStands(l: Lists, u: Id)
    requires Valid(l)
    ensures Stands(l, u, AttitudeOf(l, u))
  {
  }

  lemma ApartIsSerial(r: Lists, c: Call, d: Call)
    requires Valid(r) && Plan(r, c).Ok? && Plan(r, d).Ok? && c.user != d.user && !Collide(r, c, d)
    ensures Overlapped(r, c, d) == After(After(r, c), d)
  {
  }

  lemma SameUserIsSerial(r: Lists, c: Call, d: Call)
    requires Valid(r) && Plan(r, c).Ok? && Plan(r, d).Ok? && c.user == d.user
    ensures Overlapped(r, c, d) == After(After(r, c), d)
  {
    match c.op
    case Like => AfterLike(r, c.user, d.op);
    case Dislike => AfterDislike(r, c.user, d.op);
    case Unlike => RemoveAbsent(r.dislikes, c.user);
    case UndoDislike => RemoveAbsent(r.likes, c.user);
  }

  lemma AfterLike(r: Lists, u: Id, op: Op)
    requires Valid(r) && Plan(r, Call(Like, u)).Ok? && Plan(r, Call(op, u)).Ok?
    ensures Overlapped(r, Call(Like, u), Call(op, u)) == After(After(r, Call(Like, u)), Call(op, u))
  {
    var first := After(r, Call(Like, u));
    assert first.likes == r.likes + [u] && u in first.likes && u !in first.dislikes;
    if op == Dislike {
      RemoveAppended(r.likes, u);
      RemoveAbsent(r.likes, u);
      assert first.dislikes == r.dislikes;
      assert After(first, Call(op, u)) == Lists(r.likes, r.dislikes + [u]);
    } else {
      assert After(first, Call(op, u)) == first;
    }
  }

  lemma AfterDislike(r: Lists, u: Id, op: Op)
    requires Valid(r) && Plan(r, Call(Dislike, u)).Ok? && Plan(r, Call(op, u)).Ok?
    ensures Overlapped(r, Call(Dislike, u), Call(op, u)) == After(After(r, Call(Dislike, u)), Call(op, u))
  {
    var first := After(r, Call(Dislike, u));
    assert first.dislikes == r.dislikes + [u] && u in first.dislikes && u !in first.likes;
    if op == Like {
      RemoveAppended(r.dislikes, u);
      RemoveAbsent(r.dislikes, u);
      assert first.likes == r.likes;
      assert After(first, Call(op, u)) == Lists(r.likes + [u], r.dislikes);
    } else {
      assert After(first, Call(op, u)) == first;
    }
  }

  /** Two overlapping likes: only the one that writes last stays. */
  lemma OverlappingLikesLoseOne(u: Id, v: Id)
    requires u != v
    ensures Overlapped(Lists([], []), Call(Like, u), Call(Like, v)) == Lists([v], [])
    ensures Collide(Lists([], []), Call(Like, u), Call(Like, v))
  {
    assert [] + [v] == [v];
  }

  /** Disjointness does not survive every interleaving: an unlike that read before a dislike and wrote
      after it puts the disliking user back among the likes. */
  lemma InterleavedUnlikeBreaksDisjointness(u: Id, v: Id)
    requires u != v
    ensures var r, c, d := Lists([u, v], []), Call(Unlike, u), Call(Dislike, v);
            && Plan(r, c).Ok? && Plan(r, d).Ok?
            && Overlapped(r, d, c) == Lists([v], [v]) && !Valid(Overlapped(r, d, c))
  {
    RemoveFromPair(u, v);
    assert v in [v] && [] + [v] == [v];
  }

  lemma RemoveFromPair(u: Id, v: Id)
    requires u != v
    ensures Remove([u, v], u) == [v] && Remove([u, v], v) == [u]
  {
    assert [u, v][1..] == [v] && [v][1..] == [];
    assert Remove([v], u) == [v] && Remove([v], v) == [];
  }
}
