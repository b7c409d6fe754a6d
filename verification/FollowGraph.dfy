/** The follow relation, kept twice: as `following` of one user and `followers` of the other, by two
    separate writes (repositories/UserRepository.ts), on a store that keeps both lists in documents. */
module FollowGraph {
  import opened IdLists

  datatype Error = SelfFollow | NotFound | AlreadyFollowing | NotFollowing
  datatype Result<+T> = Ok(value: T) | Err(error: Error)
  datatype User = User(following: seq<Id>, followers: seq<Id>)

  type Graph = map<Id, User>

  /** `user` is the one followed, `follower` the one who follows. */
  datatype Call = Follow(user: Id, follower: Id) | Unfollow(user: Id, follower: Id)

  function Refusal(g: Graph, c: Call): Result<()> {
    if c.Follow? && c.user == c.follower then Err(SelfFollow)
    else if c.user !in g || c.follower !in g then Err(NotFound)
    else if c.Follow? && c.user in g[c.follower].following then Err(AlreadyFollowing)
    else if c.Unfollow? && c.user !in g[c.follower].following then Err(NotFollowing)
    else Ok(())
  }

  /** The list a call computes for the follower, from the list it read. */
  function NewFollowing(c: Call, seen: seq<Id>): seq<Id> {
    if c.Follow? then seen + [c.user] else Remove(seen, c.user)
  }

  function NewFollowers(c: Call, seen: seq<Id>): seq<Id> {
    if c.Follow? then seen + [c.follower] else Remove(seen, c.follower)
  }

  /** The first of a call's two writes; `seen` is the follower as read before it. */
  function FirstWrite(g: Graph, c: Call, seen: User): Graph
    requires c.follower in g
  {
    g[c.follower := g[c.follower].(following := NewFollowing(c, seen.following))]
  }

  /** The second write; `seen` is the user as read before the first. */
  function SecondWrite(g: Graph, c: Call, seen: User): Graph
    requires c.user in g
  {
    g[c.user := g[c.user].(followers := NewFollowers(c, seen.followers))]
  }

  function Apply(g: Graph, c: Call): Result<Graph> {
    match Refusal(g, c)
    case Err(e) => Err(e)
    case Ok(_) => Ok(SecondWrite(FirstWrite(g, c, g[c.follower]), c, g[c.user]))
  }

  /** A call cut off between its two writes. */
  function HalfDone(g: Graph, c: Call): Graph
    requires c.follower in g
  {
    FirstWrite(g, c, g[c.follower])
  }

  function Run(g: Graph, calls: seq<Call>): Graph
    decreases |calls|
  {
    if calls == [] then g
    else Run(if Apply(g, calls[0]).Ok? then Apply(g, calls[0]).value else g, calls[1..])
  }

  // ---------------------------------------------------------------- the class

  class UserRepository {
    var users: Graph

    constructor (users: Graph)
      ensures this.users == users
    {
      this.users := users;
    }

    method UpdateFollowing(id: Id, following: seq<Id>)
      requires id in users
      modifies this
      ensures users == old(users)[id := old(users)[id].(following := following)]
    {
      users := users[id := users[id].(following := following)];
    }

    method UpdateFollowers(id: Id, followers: seq<Id>)
      requires id in users
      modifies this
      ensures users == old(users)[id := old(users)[id].(followers := followers)]
    {
      users := users[id := users[id].(followers := followers)];
    }

    method FollowUser(userId: Id, followerId: Id) returns (r: Result<User>)
      modifies this
      ensures match Apply(old(users), Follow(userId, followerId))
              case Ok(g) => users == g && r == Ok(users[userId])
              case Err(e) => users == old(users) && r == Err(e)
    {
      if userId == followerId { return Err(SelfFollow); }
      if userId !in users || followerId !in users { return Err(NotFound); }
      var user, follower := users[userId], users[followerId];
      if userId in follower.following { return Err(AlreadyFollowing); }
      UpdateFollowing(followerId, follower.following + [userId]);
      UpdateFollowers(userId, user.followers + [followerId]);
      return Ok(users[userId]);
    }

    method UnfollowUser(userId: Id, followerId: Id) returns (r: Result<User>)
      modifies this
      ensures match Apply(old(users), Unfollow(userId, followerId))
              case Ok(g) => users == g && r == Ok(users[userId])
              case Err(e) => users == old(users) && r == Err(e)
    {
      if userId !in users || followerId !in users { return Err(NotFound); }
      var user, follower := users[userId], users[followerId];
      if userId !in follower.following { return Err(NotFollowing); }
      UpdateFollowing(followerId, Remove(follower.following, userId));
      UpdateFollowers(userId, Remove(user.followers, followerId));
      return Ok(users[userId]);
    }
  }

  // ---------------------------------------------------------------- what a call does

  /** Which error a call meets, in the order of its checks. */
  lemma RefusalMeaning(g: Graph, user: Id, follower: Id)
    ensures var r := Apply(g, Follow(user, follower));
            && (r == Err(SelfFollow) <==> user == follower)
            && (r == Err(NotFound) <==> user != follower && (user !in g || follower !in g))
            && (r == Err(AlreadyFollowing)
                <==> user != follower && user in g && follower in g && user in g[follower].following)
            && (r.Err? ==> r.error != NotFollowing)
    ensures var r := Apply(g, Unfollow(user, follower));
            && (r == Err(NotFound) <==> user !in g || follower !in g)
            && (r == Err(NotFollowing) <==> user in g && follower in g && user !in g[follower].following)
            && (r.Err? ==> r.error == NotFound || r.error == NotFollowing)
  {
  }

  /** A follow appends to both lists, an unfollow removes from both, and nothing else changes. */
  lemma ApplyMeaning(g: Graph, c: Call)
    requires Apply(g, c).Ok? && c.user != c.follower
    ensures var g', f, u := Apply(g, c).value, g[c.follower], g[c.user];
            if c.Follow? then
              g' == g[c.follower := User(f.following + [c.user], f.followers)]
                     [c.user := User(u.following, u.followers + [c.follower])]
            else
              g' == g[c.follower := User(Remove(f.following, c.user), f.followers)]
                     [c.user := User(u.following, Remove(u.followers, c.follower))]
  {
  }

  // ---------------------------------------------------------------- the invariant

  predicate Edge(g: Graph, follower: Id, user: Id) {
    follower in g && user in g[follower].following
  }

  predicate BackEdge(g: Graph, follower: Id, user: Id) {
    user in g && follower in g[user].followers
  }

  ghost predicate Good(g: Graph) {
    && (forall a, b :: Edge(g, a, b) <==> BackEdge(g, a, b))
    && (forall a :: !Edge(g, a, a))
    && forall a :: a in g ==> NoDuplicates(g[a].following) && NoDuplicates(g[a].followers)
  }

  /** A completed call adds or removes exactly its own edge, on both sides. */
  lemma ApplyEdges(g: Graph, c: Call)
    requires Good(g)
    ensures Apply(g, c).Ok? ==>
              var g' := Apply(g, c).value;
              && g'.Keys == g.Keys
              && (forall a, b :: Edge(g', a, b)
                   <==> if a == c.follower && b == c.user then c.Follow? else Edge(g, a, b))
              && (forall a, b :: BackEdge(g', a, b)
                   <==> if a == c.follower && b == c.user then c.Follow? else BackEdge(g, a, b))
  {
  }

  lemma ApplyKeepsLists(g: Graph, c: Call)
    requires Good(g) && Apply(g, c).Ok?
    ensures forall a :: a in Apply(g, c).value ==>
              NoDuplicates(Apply(g, c).value[a].following) && NoDuplicates(Apply(g, c).value[a].followers)
  {
    assert !Edge(g, c.follower, c.follower);
    if c.Unfollow? {
      RemoveKeeps(g[c.follower].following, c.user);
      RemoveKeeps(g[c.user].followers, c.follower);
    } else {
      assert !Edge(g, c.follower, c.user) && !BackEdge(g, c.follower, c.user);
      AppendKeeps(g[c.follower].following, c.user);
      AppendKeeps(g[c.user].followers, c.follower);
    }
  }

  lemma ApplyKeepsGood(g: Graph, c: Call)
    requires Good(g)
    ensures Apply(g, c).Ok? ==> Good(Apply(g, c).value)
  {
    if Apply(g, c).Ok? {
      ApplyEdges(g, c);
      ApplyKeepsLists(g, c);
      assert !Edge(g, c.follower, c.follower);
    }
  }

  /** Over every run of completed calls both sides agree, nobody follows themselves and no list
      holds a user twice. */
  lemma {:induction false} RunKeepsGood(g: Graph, calls: seq<Call>)
    requires Good(g)
    ensures Good(Run(g, calls))
    decreases |calls|
  {
    if calls != [] {
      ApplyKeepsGood(g, calls[0]);
      RunKeepsGood(if Apply(g, calls[0]).Ok? then Apply(g, calls[0]).value else g, calls[1..]);
    }
  }

  // ---------------------------------------------------------------- undoing and repairing

  /** Unfollowing undoes a completed follow exactly, list orders included, and it undoes just as
      exactly a follow that stopped between its two writes. */
  lemma UnfollowUndoesFollow(g: Graph, user: Id, follower: Id)
    requires Good(g) && Refusal(g, Follow(user, follower)).Ok?
    ensures Apply(Apply(g, Follow(user, follower)).value, Unfollow(user, follower)) == Ok(g)
    ensures Apply(HalfDone(g, Follow(user, follower)), Unfollow(user, follower)) == Ok(g)
  {
    var c := Follow(user, follower);
    assert !Edge(g, follower, user) && !BackEdge(g, follower, user);
    RemoveAppended(g[follower].following, user);
    RemoveAbsent(g[follower].following, user);
    RemoveAppended(g[user].followers, follower);
    RemoveAbsent(g[user].followers, follower);
    var half := HalfDone(g, c);
    var full := SecondWrite(half, c, g[user]);
    assert user in half[follower].following && user in full[follower].following;
    var undone := SecondWrite(HalfDone(full, Unfollow(user, follower)), Unfollow(user, follower), full[user]);
    assert undone[follower].following == g[follower].following;
    assert undone == g;
    assert SecondWrite(HalfDone(half, Unfollow(user, follower)), Unfollow(user, follower), half[user]) == g;
  }

  /** An unfollow that stopped between its two writes is refused when retried, and a follow on top of
      it doubles an entry; following and then unfollowing completes it. */
  lemma HalfUnfollowNeedsTwoCalls(g: Graph, user: Id, follower: Id)
    requires Good(g) && Refusal(g, Unfollow(user, follower)).Ok?
    ensures var half := HalfDone(g, Unfollow(user, follower));
            var again := Apply(half, Follow(user, follower));
            && Apply(half, Unfollow(user, follower)) == Err(NotFollowing)
            && again.Ok? && !NoDuplicates(again.value[user].followers)
            && Apply(again.value, Unfollow(user, follower)) == Apply(g, Unfollow(user, follower))
  {
    HalfUnfollowDoubles(g, user, follower);
    HalfUnfollowCompletes(g, user, follower);
  }

  lemma HalfUnfollowDoubles(g: Graph, user: Id, follower: Id)
    requires Good(g) && Refusal(g, Unfollow(user, follower)).Ok?
    ensures var half := HalfDone(g, Unfollow(user, follower));
            var again := Apply(half, Follow(user, follower));
            && Apply(half, Unfollow(user, follower)) == Err(NotFollowing)
            && again.Ok? && !NoDuplicates(again.value[user].followers)
  {
    assert Edge(g, follower, user) && BackEdge(g, follower, user) && !Edge(g, follower, follower);
    var f, half := Follow(user, follower), HalfDone(g, Unfollow(user, follower));
    var again := SecondWrite(HalfDone(half, f), f, half[user]);
    assert again[user].followers == g[user].followers + [follower];
    var k :| 0 <= k < |g[user].followers| && g[user].followers[k] == follower;
    assert again[user].followers[k] == again[user].followers[|g[user].followers|];
  }

  lemma HalfUnfollowCompletes(g: Graph, user: Id, follower: Id)
    requires Good(g) && Refusal(g, Unfollow(user, follower)).Ok?
    ensures var again := Apply(HalfDone(g, Unfollow(user, follower)), Follow(user, follower));
            again.Ok? && Apply(again.value, Unfollow(user, follower)) == Apply(g, Unfollow(user, follower))
  {
    assert Edge(g, follower, user) && !Edge(g, follower, follower);
    var u, f := Unfollow(user, follower), Follow(user, follower);
    var half := HalfDone(g, u);
    var again := SecondWrite(HalfDone(half, f), f, half[user]);
    RemoveAppended(g[user].followers, follower);
    var rest := Remove(g[follower].following, user);
    RemoveAppended(rest, user);
    RemoveAbsent(rest, user);
    var done, redone := SecondWrite(half, u, g[user]), HalfDone(again, u);
    assert redone[follower].following == rest;
    assert SecondWrite(redone, u, again[user]) == done;
  }

  // ---------------------------------------------------------------- overlapping calls

  /** How far a call has come: it reads the user, then the follower, then writes twice. */
  datatype Stage = HasUser(user: User) | HasBoth(user: User, follower: User) | Half(user: User) | Done
  datatype Flight = Flight(call: Call, stage: Stage)
  datatype Shared = Shared(graph: Graph, flights: seq<Flight>)
  datatype Turn = Begin(call: Call) | Go(index: nat)

  predicate Known(g: Graph, c: Call) {
    c.user in g && c.follower in g && !(c.Follow? && c.user == c.follower)
  }

  function Proceed(g: Graph, f: Flight): (Graph, Stage)
    requires Known(g, f.call)
  {
    match f.stage
    case HasUser(u) => (g, if Refusal(g, f.call).Ok? then HasBoth(u, g[f.call.follower]) else Done)
    case HasBoth(u, w) => (FirstWrite(g, f.call, w), Half(u))
    case Half(u) => (SecondWrite(g, f.call, u), Done)
    case Done => (g, Done)
  }

  function Advance(s: Shared, t: Turn): Shared {
    match t
    case Begin(c) => if Known(s.graph, c) then s.(flights := s.flights + [Flight(c, HasUser(s.graph[c.user]))]) else s
    case Go(i) =>
      if i < |s.flights| && Known(s.graph, s.flights[i].call) then
        var (g, stage) := Proceed(s.graph, s.flights[i]);
        Shared(g, s.flights[i := s.flights[i].(stage := stage)])
      else s
  }

  function Play(s: Shared, turns: seq<Turn>): Shared
    decreases |turns|
  {
    if turns == [] then s else Play(Advance(s, turns[0]), turns[1..])
  }

  predicate AllDone(s: Shared) {
    forall k :: 0 <= k < |s.flights| ==> s.flights[k].stage.Done?
  }

  /** A call whose steps nothing interrupts is a completed call. */
  lemma AloneIsApply(g: Graph, c: Call)
    requires Known(g, c)
    ensures Play(Shared(g, []), [Begin(c), Go(0), Go(0), Go(0)]).graph == if Apply(g, c).Ok? then Apply(g, c).value else g
  {
    FourTurns(Shared(g, []), Begin(c), Go(0), Go(0), Go(0));
  }

  predicate FollowingWritten(h: Graph, g: Graph, c: Call, byC: bool, d: Call, byD: bool)
    requires Known(g, c) && Known(g, d)
  {
    && h.Keys == g.Keys
    && forall x :: x in g ==>
         Written(h[x].following, g[x].following, x == c.follower && byC, NewFollowing(c, g[c.follower].following),
                 x == d.follower && byD, NewFollowing(d, g[d.follower].following))
  }

  predicate FollowersWritten(h: Graph, g: Graph, c: Call, byC: bool, d: Call, byD: bool)
    requires Known(g, c) && Known(g, d)
  {
    && h.Keys == g.Keys
    && forall x :: x in g ==>
         Written(h[x].followers, g[x].followers, x == c.user && byC, NewFollowers(c, g[c.user].followers),
                 x == d.user && byD, NewFollowers(d, g[d.user].followers))
  }

  /** `g` was what both calls read; each list holds what was last written to it, or what it held. */
  predicate Between(s: Shared, g: Graph, c: Call, d: Call)
    requires Known(g, c) && Known(g, d)
  {
    && |s.flights| == 2 && s.flights[0].call == c && s.flights[1].call == d
    && Pending(g, s.flights[0]) && Pending(g, s.flights[1])
    && FollowingWritten(s.graph, g, c, !s.flights[0].stage.HasBoth?, d, !s.flights[1].stage.HasBoth?)
    && FollowersWritten(s.graph, g, c, s.flights[0].stage.Done?, d, s.flights[1].stage.Done?)
  }

  predicate Pending(g: Graph, f: Flight) {
    && Known(g, f.call)
    && match f.stage
       case HasUser(_) => false
       case HasBoth(u, w) => u == g[f.call.user] && w == g[f.call.follower]
       case Half(u) => u == g[f.call.user]
       case Done => true
  }

  predicate Written(now: seq<Id>, was: seq<Id>, byC: bool, ofC: seq<Id>, byD: bool, ofD: seq<Id>) {
    if byC && byD then now == ofC || now == ofD
    else now == if byC then ofC else if byD then ofD else was
  }

  lemma FirstWriteWritten(h: Graph, g: Graph, c: Call, d: Call, byC: bool, byD: bool)
    requires Known(g, c) && Known(g, d) && FollowingWritten(h, g, c, byC, d, byD)
    ensures FollowingWritten(FirstWrite(h, c, g[c.follower]), g, c, true, d, byD)
  {
    var h' := FirstWrite(h, c, g[c.follower]);
    assert forall x :: x in g && x != c.follower ==> h'[x].following == h[x].following;
  }

  lemma SecondWriteWritten(h: Graph, g: Graph, c: Call, d: Call, doneC: bool, doneD: bool)
    requires Known(g, c) && Known(g, d) && FollowersWritten(h, g, c, doneC, d, doneD)
    ensures FollowersWritten(SecondWrite(h, c, g[c.user]), g, c, true, d, doneD)
  {
    var h' := SecondWrite(h, c, g[c.user]);
    assert forall x :: x in g && x != c.user ==> h'[x].followers == h[x].followers;
  }

  /** The first write leaves every followers list alone, and the second every following list. */
  lemma FollowersKept(h: Graph, h': Graph, g: Graph, c: Call, d: Call, byC: bool, byD: bool)
    requires Known(g, c) && Known(g, d) && FollowersWritten(h, g, c, byC, d, byD)
    requires h'.Keys == h.Keys && forall x :: x in h ==> h'[x].followers == h[x].followers
    ensures FollowersWritten(h', g, c, byC, d, byD)
  {
  }

  lemma FollowingKept(h: Graph, h': Graph, g: Graph, c: Call, d: Call, byC: bool, byD: bool)
    requires Known(g, c) && Known(g, d) && FollowingWritten(h, g, c, byC, d, byD)
    requires h'.Keys == h.Keys && forall x :: x in h ==> h'[x].following == h[x].following
    ensures FollowingWritten(h', g, c, byC, d, byD)
  {
  }

  lemma FollowingSwaps(h: Graph, g: Graph, c: Call, byC: bool, d: Call, byD: bool)
    requires Known(g, c) && Known(g, d)
    ensures FollowingWritten(h, g, c, byC, d, byD) <==> FollowingWritten(h, g, d, byD, c, byC)
  {
  }

  lemma FollowersSwap(h: Graph, g: Graph, c: Call, byC: bool, d: Call, byD: bool)
    requires Known(g, c) && Known(g, d)
    ensures FollowersWritten(h, g, c, byC, d, byD) <==> FollowersWritten(h, g, d, byD, c, byC)
  {
  }

  lemma ProceedWritten(h: Graph, g: Graph, f: Flight, d: Call, byD: bool, doneD: bool)
    requires Known(g, f.call) && Known(g, d) && Pending(g, f)
    requires FollowingWritten(h, g, f.call, !f.stage.HasBoth?, d, byD)
             && FollowersWritten(h, g, f.call, f.stage.Done?, d, doneD)
    ensures var (h', stage) := Proceed(h, f);
            && Pending(g, f.(stage := stage)) && FollowingWritten(h', g, f.call, !stage.HasBoth?, d, byD)
            && FollowersWritten(h', g, f.call, stage.Done?, d, doneD)
  {
    match f.stage
    case HasBoth(_, w) =>
      FirstWriteWritten(h, g, f.call, d, false, byD);
      FollowersKept(h, FirstWrite(h, f.call, w), g, f.call, d, false, doneD);
    case Half(u) =>
      SecondWriteWritten(h, g, f.call, d, false, doneD);
      FollowingKept(h, SecondWrite(h, f.call, u), g, f.call, d, true, byD);
    case Done =>
  }

  lemma AdvanceBetween(s: Shared, t: Turn, g: Graph, c: Call, d: Call)
    requires Known(g, c) && Known(g, d) && Between(s, g, c, d) && t.Go?
    ensures Between(Advance(s, t), g, c, d)
  {
    if t.index == 0 {
      ProceedWritten(s.graph, g, s.flights[0], d, !s.flights[1].stage.HasBoth?, s.flights[1].stage.Done?);
    } else if t.index == 1 {
      SecondProceeds(s, g, c, d);
    }
  }

  lemma SecondProceeds(s: Shared, g: Graph, c: Call, d: Call)
    requires Known(g, c) && Known(g, d) && Between(s, g, c, d)
    ensures Between(Advance(s, Go(1)), g, c, d)
  {
    ProceedWrittenToo(s.graph, g, s.flights[1], c, !s.flights[0].stage.HasBoth?, s.flights[0].stage.Done?);
  }

  lemma ProceedWrittenToo(h: Graph, g: Graph, f: Flight, c: Call, byC: bool, doneC: bool)
    requires Known(g, f.call) && Known(g, c) && Pending(g, f)
    requires FollowingWritten(h, g, c, byC, f.call, !f.stage.HasBoth?)
             && FollowersWritten(h, g, c, doneC, f.call, f.stage.Done?)
    ensures var (h', stage) := Proceed(h, f);
            && Pending(g, f.(stage := stage)) && FollowingWritten(h', g, c, byC, f.call, !stage.HasBoth?)
            && FollowersWritten(h', g, c, doneC, f.call, stage.Done?)
  {
    FollowingSwaps(h, g, c, byC, f.call, !f.stage.HasBoth?);
    FollowersSwap(h, g, c, doneC, f.call, f.stage.Done?);
    ProceedWritten(h, g, f, c, byC, doneC);
    var (h', stage) := Proceed(h, f);
    FollowingSwaps(h', g, c, byC, f.call, !stage.HasBoth?);
    FollowersSwap(h', g, c, doneC, f.call, stage.Done?);
  }

  lemma {:induction false} PlayBetween(s: Shared, turns: seq<Turn>, g: Graph, c: Call, d: Call)
    requires Known(g, c) && Known(g, d) && Between(s, g, c, d)
    requires forall k :: 0 <= k < |turns| ==> turns[k].Go?
    ensures Between(Play(s, turns), g, c, d)
    decreases |turns|
  {
    if turns != [] {
      AdvanceBetween(s, turns[0], g, c, d);
      PlayBetween(Advance(s, turns[0]), turns[1..], g, c, d);
    }
  }

  function BothRead(g: Graph, c: Call, d: Call): Shared
    requires Known(g, c) && Known(g, d)
  {
    Shared(g, [Flight(c, HasBoth(g[c.user], g[c.follower])), Flight(d, HasBoth(g[d.user], g[d.follower]))])
  }

  /** Two calls that both read before either wrote, whatever the order of their four writes: the two
      sides still agree exactly when the calls are the same, or share neither the user nor the
      follower. So two followers of one user, one follower of two users, and a follow overlapping an
      unfollow all break it. */
  lemma OverlapKeepsGoodIff(g: Graph, c: Call, d: Call, turns: seq<Turn>)
    requires Good(g) && Refusal(g, c).Ok? && Refusal(g, d).Ok?
    requires forall k :: 0 <= k < |turns| ==> turns[k].Go?
    requires AllDone(Play(BothRead(g, c, d), turns))
    ensures Good(Play(BothRead(g, c, d), turns).graph) <==> c == d || (c.user != d.user && c.follower != d.follower)
  {
    var s := BothRead(g, c, d);
    assert Between(s, g, c, d);
    PlayBetween(s, turns, g, c, d);
    var t := Play(s, turns);
    assert t.flights[0].stage.Done? && t.flights[1].stage.Done?;
    if c == d {
      SameTwice(t.graph, g, c);
    } else if c.user != d.user && c.follower != d.follower {
      OneAfterOther(t.graph, g, c, d);
    } else if c.user == d.user && c.follower != d.follower {
      if t.graph[c.user].followers == NewFollowers(c, g[c.user].followers) {
        FollowerLost(t.graph, g, c, d);
      } else {
        FollowerLost(t.graph, g, d, c);
      }
    } else if c.follower == d.follower && c.user != d.user {
      if t.graph[c.follower].following == NewFollowing(c, g[c.follower].following) {
        FollowingLost(t.graph, g, c, d);
      } else {
        FollowingLost(t.graph, g, d, c);
      }
    }
  }

  lemma FourTurns(s: Shared, a: Turn, b: Turn, c: Turn, d: Turn)
    ensures Play(s, [a, b, c, d]) == Advance(Advance(Advance(Advance(s, a), b), c), d)
  {
    var turns := [a, b, c, d];
    assert turns[1..][1..] == turns[2..] && turns[2..][1..] == turns[3..] && turns[3..][1..] == [];
    var s1, s2 := Advance(s, a), Advance(Advance(s, a), b);
    assert Play(s2, turns[2..]) == Play(Advance(s2, c), turns[3..]);
    assert Play(s1, turns[1..]) == Play(s2, turns[2..]);
  }

  lemma BothReadIsReached(g: Graph, c: Call, d: Call)
    requires Refusal(g, c).Ok? && Refusal(g, d).Ok?
    ensures Play(Shared(g, []), [Begin(c), Begin(d), Go(0), Go(1)]) == BothRead(g, c, d)
  {
    FourTurns(Shared(g, []), Begin(c), Begin(d), Go(0), Go(1));
  }

  lemma BothFinish(g: Graph, c: Call, d: Call)
    requires Refusal(g, c).Ok? && Refusal(g, d).Ok?
    ensures AllDone(Play(BothRead(g, c, d), [Go(0), Go(1), Go(0), Go(1)]))
  {
    FourTurns(BothRead(g, c, d), Go(0), Go(1), Go(0), Go(1));
  }

  /** Such overlaps are reached: both calls read, then both write, and two followers of one user, or
      one follower of two users, end with sides that disagree. */
  lemma OverlappingFollowsDisagree(g: Graph, c: Call, d: Call)
    requires Good(g) && Refusal(g, c).Ok? && Refusal(g, d).Ok?
    requires c != d && (c.user == d.user || c.follower == d.follower)
    ensures var read := Play(Shared(g, []), [Begin(c), Begin(d), Go(0), Go(1)]);
            var wrote := Play(read, [Go(0), Go(1), Go(0), Go(1)]);
            read == BothRead(g, c, d) && AllDone(wrote) && !Good(wrote.graph)
  {
    BothReadIsReached(g, c, d);
    BothFinish(g, c, d);
    OverlapKeepsGoodIff(g, c, d, [Go(0), Go(1), Go(0), Go(1)]);
  }

  lemma SameTwice(h: Graph, g: Graph, c: Call)
    requires Good(g) && Refusal(g, c).Ok? && h.Keys == g.Keys
    requires forall x :: x in g ==>
               h[x].following == if x == c.follower then NewFollowing(c, g[x].following) else g[x].following
    requires forall x :: x in g ==>
               h[x].followers == if x == c.user then NewFollowers(c, g[x].followers) else g[x].followers
    ensures Good(h)
  {
    ApplyLists(g, c);
    assert h == Apply(g, c).value;
    ApplyKeepsGood(g, c);
  }

  lemma ApplyLists(g: Graph, c: Call)
    requires Refusal(g, c).Ok?
    ensures var m := Apply(g, c).value;
            && m.Keys == g.Keys
            && (forall x :: x in g
                 ==> m[x].following == if x == c.follower then NewFollowing(c, g[x].following) else g[x].following)
            && (forall x :: x in g
                 ==> m[x].followers == if x == c.user then NewFollowers(c, g[x].followers) else g[x].followers)
  {
  }

  lemma StillAccepted(g: Graph, c: Call, d: Call)
    requires Refusal(g, c).Ok? && Refusal(g, d).Ok? && c.follower != d.follower
    ensures Refusal(Apply(g, c).value, d).Ok?
  {
  }

  lemma OneAfterOther(h: Graph, g: Graph, c: Call, d: Call)
    requires Good(g) && Refusal(g, c).Ok? && Refusal(g, d).Ok? && h.Keys == g.Keys
    requires c.user != d.user && c.follower != d.follower
    requires forall x :: x in g ==> h[x].following == if x == c.follower then NewFollowing(c, g[x].following)
                                                      else if x == d.follower then NewFollowing(d, g[x].following)
                                                      else g[x].following
    requires forall x :: x in g ==> h[x].followers == if x == c.user then NewFollowers(c, g[x].followers)
                                                      else if x == d.user then NewFollowers(d, g[x].followers)
                                                      else g[x].followers
    ensures Good(h)
  {
    var m := Apply(g, c).value;
    ApplyLists(g, c);
    ApplyKeepsGood(g, c);
    StillAccepted(g, c, d);
    SameTwice(h, m, d);
  }

  /** The user's list was written last by `c`, from a list that knows nothing of `d`. */
  lemma FollowerLost(h: Graph, g: Graph, c: Call, d: Call)
    requires Good(g) && Refusal(g, c).Ok? && Refusal(g, d).Ok? && h.Keys == g.Keys
    requires c.user == d.user && c.follower != d.follower
    requires h[c.user].followers == NewFollowers(c, g[c.user].followers)
             && h[d.follower].following == NewFollowing(d, g[d.follower].following)
    ensures !Good(h)
  {
    assert Edge(g, d.follower, d.user) <==> BackEdge(g, d.follower, d.user);
    assert Edge(h, d.follower, d.user) <==> d.Follow?;
    assert BackEdge(h, d.follower, d.user) <==> !d.Follow?;
  }

  lemma FollowingLost(h: Graph, g: Graph, c: Call, d: Call)
    requires Good(g) && Refusal(g, c).Ok? && Refusal(g, d).Ok? && h.Keys == g.Keys
    requires c.follower == d.follower && c.user != d.user
    requires h[c.follower].following == NewFollowing(c, g[c.follower].following)
             && h[d.user].followers == NewFollowers(d, g[d.user].followers)
    ensures !Good(h)
  {
    assert Edge(g, d.follower, d.user) <==> BackEdge(g, d.follower, d.user);
    assert Edge(h, d.follower, d.user) <==> !d.Follow?;
    assert BackEdge(h, d.follower, d.user) <==> d.Follow?;
  }

  // ---------------------------------------------------------------- any number of calls at once

  /** Calls under way share neither their users nor their followers. */
  predicate Apart(flights: seq<Flight>) {
    forall i, j :: 0 <= i < j < |flights| && !flights[i].stage.Done? && !flights[j].stage.Done? ==>
      flights[i].call.user != flights[j].call.user && flights[i].call.follower != flights[j].call.follower
  }

  predicate NeverClash(s: Shared, turns: seq<Turn>)
    decreases |turns|
  {
    Apart(s.flights) && (turns != [] ==> NeverClash(Advance(s, turns[0]), turns[1..]))
  }

  /** What a call under way has read is still so, and only a half-done call's edge is on one side. */
  predicate Current(g: Graph, f: Flight) {
    f.stage.Done? ||
    (Known(g, f.call) &&
     match f.stage
     case HasUser(u) => u.followers == g[f.call.user].followers
     case HasBoth(u, w) =>
       && u.followers == g[f.call.user].followers && w.following == g[f.call.follower].following
       && Refusal(g, f.call).Ok?
     case Half(u) =>
       && u.followers == g[f.call.user].followers
       && (Edge(g, f.call.follower, f.call.user) <==> f.call.Follow?)
       && (BackEdge(g, f.call.follower, f.call.user) <==> !f.call.Follow?)
       && f.call.follower != f.call.user
     case Done => true)
  }

  predicate HalfDoneEdge(flights: seq<Flight>, a: Id, b: Id) {
    exists k :: 0 <= k < |flights| && flights[k].stage.Half? && flights[k].call.follower == a && flights[k].call.user == b
  }

  ghost predicate Consistent(s: Shared) {
    && (forall k :: 0 <= k < |s.flights| ==> Current(s.graph, s.flights[k]))
    && (forall a, b :: HalfDoneEdge(s.flights, a, b) || (Edge(s.graph, a, b) <==> BackEdge(s.graph, a, b)))
    && (forall a :: !Edge(s.graph, a, a) && !BackEdge(s.graph, a, a))
    && forall a :: a in s.graph ==> NoDuplicates(s.graph[a].following) && NoDuplicates(s.graph[a].followers)
  }

  lemma FirstWriteEdges(g: Graph, c: Call, seen: User)
    requires Known(g, c) && seen.following == g[c.follower].following
    ensures var h := FirstWrite(g, c, seen);
            && h.Keys == g.Keys
            && (forall a, b :: Edge(h, a, b) <==> if a == c.follower && b == c.user then c.Follow? else Edge(g, a, b))
            && (forall a, b :: BackEdge(h, a, b) <==> BackEdge(g, a, b))
            && (forall x :: x in g ==> h[x].followers == g[x].followers)
            && (forall x :: x in g && x != c.follower ==> h[x].following == g[x].following)
  {
  }

  lemma SecondWriteEdges(g: Graph, c: Call, seen: User)
    requires Known(g, c) && seen.followers == g[c.user].followers
    ensures var h := SecondWrite(g, c, seen);
            && h.Keys == g.Keys
            && (forall a, b :: BackEdge(h, a, b)
                 <==> if a == c.follower && b == c.user then c.Follow? else BackEdge(g, a, b))
            && (forall a, b :: Edge(h, a, b) <==> Edge(g, a, b))
            && (forall x :: x in g ==> h[x].following == g[x].following)
            && (forall x :: x in g && x != c.user ==> h[x].followers == g[x].followers)
  {
  }

  predicate NoRepeats(g: Graph) {
    forall a :: a in g ==> NoDuplicates(g[a].following) && NoDuplicates(g[a].followers)
  }

  predicate OffGoing(f: Flight, e: Flight) {
    f.stage.Done? || (f.call.user != e.call.user && f.call.follower != e.call.follower)
  }

  /** The other calls under way notice nothing of a write. */
  lemma WriteLeavesOthersCurrent(g: Graph, f: Flight, other: Flight)
    requires Current(g, f) && Current(g, other) && !f.stage.Done? && OffGoing(other, f)
    ensures Current(Proceed(g, f).0, other)
  {
    match f.stage
    case HasUser(_) =>
    case HasBoth(_, w) => FirstWriteEdges(g, f.call, w);
    case Half(u) => SecondWriteEdges(g, f.call, u);
  }

  lemma WriteKeepsCurrent(g: Graph, f: Flight)
    requires Current(g, f) && !f.stage.Done?
    requires NoRepeats(g) && !BackEdge(g, f.call.user, f.call.user) && !Edge(g, f.call.follower, f.call.follower)
    requires !f.stage.Half? ==> (Edge(g, f.call.follower, f.call.user) <==> BackEdge(g, f.call.follower, f.call.user))
    ensures var (h, stage) := Proceed(g, f);
            && Current(h, f.(stage := stage)) && NoRepeats(h)
            && (stage.Done? && f.stage.Half? ==>
                  (Edge(h, f.call.follower, f.call.user) <==> BackEdge(h, f.call.follower, f.call.user)))
  {
    var c := f.call;
    match f.stage
    case HasUser(_) =>
    case HasBoth(_, w) =>
      FirstWriteEdges(g, c, w);
      RemoveKeeps(w.following, c.user);
      if c.Follow? { AppendKeeps(w.following, c.user); }
    case Half(u) =>
      SecondWriteEdges(g, c, u);
      RemoveKeeps(u.followers, c.follower);
      if c.Follow? { AppendKeeps(u.followers, c.follower); }
  }

  lemma GoKeepsConsistent(s: Shared, i: nat)
    requires Consistent(s) && Apart(s.flights) && i < |s.flights| && !s.flights[i].stage.Done?
    ensures Consistent(Advance(s, Go(i)))
  {
    var g, f, t := s.graph, s.flights[i], Advance(s, Go(i));
    assert Current(g, f);
    if !f.stage.Half? {
      assert !HalfDoneEdge(s.flights, f.call.follower, f.call.user);
    }
    WriteKeepsCurrent(g, f);
    forall k | 0 <= k < |t.flights| ensures Current(t.graph, t.flights[k]) {
      if k != i {
        assert Current(g, s.flights[k]) && OffGoing(s.flights[k], f);
        WriteLeavesOthersCurrent(g, f, s.flights[k]);
      }
    }
    forall a, b ensures HalfDoneEdge(t.flights, a, b) || (Edge(t.graph, a, b) <==> BackEdge(t.graph, a, b)) {
      EdgesAfter(s, i, a, b);
    }
    forall a ensures !Edge(t.graph, a, a) && !BackEdge(t.graph, a, a) {
      assert !Edge(g, a, a) && !BackEdge(g, a, a);
      EdgesAfter(s, i, a, a);
    }
  }

  lemma EdgesAfter(s: Shared, i: nat, a: Id, b: Id)
    requires Consistent(s) && Apart(s.flights) && i < |s.flights| && !s.flights[i].stage.Done?
    ensures var t := Advance(s, Go(i));
            && (HalfDoneEdge(t.flights, a, b) || (Edge(t.graph, a, b) <==> BackEdge(t.graph, a, b)))
            && (a == b ==> !Edge(t.graph, a, b) && !BackEdge(t.graph, a, b))
  {
    var g, f, t := s.graph, s.flights[i], Advance(s, Go(i));
    assert Current(g, f) && !Edge(g, a, a) && !BackEdge(g, a, a);
    match f.stage {
      case HasUser(_) =>
      case HasBoth(_, w) => FirstWriteEdges(g, f.call, w);
      case Half(u) => SecondWriteEdges(g, f.call, u);
    }
    if a == f.call.follower && b == f.call.user {
      if t.flights[i].stage.Half? {
        assert HalfDoneEdge(t.flights, a, b);
      } else if !f.stage.Half? {
        assert !HalfDoneEdge(s.flights, a, b);
      }
    } else if HalfDoneEdge(s.flights, a, b) {
      var k :| 0 <= k < |s.flights| && s.flights[k].stage.Half?
               && s.flights[k].call.follower == a && s.flights[k].call.user == b;
      assert t.flights[k] == s.flights[k];
    }
  }

  lemma BeginKeepsConsistent(s: Shared, c: Call)
    requires Consistent(s)
    ensures Consistent(Advance(s, Begin(c)))
  {
    var t := Advance(s, Begin(c));
    forall a, b | HalfDoneEdge(s.flights, a, b) ensures HalfDoneEdge(t.flights, a, b) {
      var k :| 0 <= k < |s.flights| && s.flights[k].stage.Half?
               && s.flights[k].call.follower == a && s.flights[k].call.user == b;
      assert t.flights[k] == s.flights[k];
    }
  }

  lemma {:induction false} PlayKeepsConsistent(s: Shared, turns: seq<Turn>)
    requires Consistent(s) && NeverClash(s, turns)
    ensures Consistent(Play(s, turns))
    decreases |turns|
  {
    if turns != [] {
      match turns[0] {
        case Begin(c) => BeginKeepsConsistent(s, c);
        case Go(i) =>
          if i < |s.flights| && !s.flights[i].stage.Done? {
            GoKeepsConsistent(s, i);
          } else if i < |s.flights| {
            assert s.flights[i := s.flights[i].(stage := Done)] == s.flights;
          }
      }
      PlayKeepsConsistent(Advance(s, turns[0]), turns[1..]);
    }
  }

  /** However many calls overlap, read by read and write by write: as long as calls under way at the
      same time share neither a user nor a follower, both sides agree again whenever none is under way. */
  lemma DisjointCallsKeepGood(g: Graph, turns: seq<Turn>)
    requires Good(g) && NeverClash(Shared(g, []), turns)
    ensures AllDone(Play(Shared(g, []), turns)) ==> Good(Play(Shared(g, []), turns).graph)
  {
    var s := Shared(g, []);
    assert Consistent(s);
    PlayKeepsConsistent(s, turns);
    var t := Play(s, turns);
    if AllDone(t) {
      forall a, b ensures Edge(t.graph, a, b) <==> BackEdge(t.graph, a, b) {
        assert !HalfDoneEdge(t.flights, a, b);
      }
    }
  }
}
