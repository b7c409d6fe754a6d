/** The ancestor backfill (scripts/backfill-ancestors.ts). */
module Hierarchy {
  import opened Optional

  type Id = string

  datatype Type = Question | Answer
  datatype Node = Node(id: Id, kind: Type)
  datatype Ancestor = Ancestor(node: Node, depth: nat)

  /** An absent field is None, and so is a null id; the empty string is a value, but a falsy one. */
  datatype QuestionDoc = QuestionDoc(parentContentId: Option<Id>, ancestors: Option<seq<Ancestor>>, parent: Option<Node>)
  datatype AnswerDoc = AnswerDoc(question: Option<Id>, ancestors: Option<seq<Ancestor>>)
  datatype Content = Content(questions: map<Id, QuestionDoc>, answers: map<Id, AnswerDoc>)

  const MAX_DEPTH: nat := 50
  const BATCH_SIZE: nat := 100

  predicate Truthy(id: Option<Id>) {
    id.Some? && id.value != ""
  }

  /** The parent recorded in a piece of content, if it leads anywhere. */
  function Next(c: Content, n: Node): Option<Node> {
    match n.kind
    case Answer =>
      if n.id in c.answers && Truthy(c.answers[n.id].question) then Some(Node(c.answers[n.id].question.value, Question))
      else None
    case Question =>
      if n.id in c.questions && Truthy(c.questions[n.id].parentContentId) then
        var p := c.questions[n.id].parentContentId.value;
        if p in c.questions then Some(Node(p, Question)) else if p in c.answers then Some(Node(p, Answer)) else None
      else None
  }

  function Shift(a: seq<Ancestor>): (r: seq<Ancestor>)
    ensures |r| == |a|
    ensures forall k :: 0 <= k < |r| ==> r[k] == Ancestor(a[k].node, a[k].depth + 1)
  {
    seq(|a|, k requires 0 <= k < |a| => Ancestor(a[k].node, a[k].depth + 1))
  }

  function Ancestors(c: Content, n: Node, visited: set<Id>, depth: nat): seq<Ancestor>
    decreases MAX_DEPTH - depth, n.id // the second component keeps a literal depth from unrolling all levels at once
  {
    if depth >= MAX_DEPTH || n.id in visited then []
    else
      var next := Next(c, n);
      [Ancestor(n, 0)] + if next.None? then [] else Shift(Ancestors(c, next.value, visited + {n.id}, depth + 1))
  }

  /** `visited` is a parameter the recursion copies before it changes it, so it is a value here. */
  method ComputeAncestors(c: Content, n: Node, visited: set<Id>, depth: nat) returns (r: seq<Ancestor>)
    ensures r == Ancestors(c, n, visited, depth)
    decreases MAX_DEPTH - depth
  {
    if depth >= MAX_DEPTH || n.id in visited { return []; }
    var seen := visited + {n.id};
    r := [Ancestor(n, 0)];
    var next: Option<Node> := None;
    if n.kind == Answer && n.id in c.answers {
      if Truthy(c.answers[n.id].question) {
        next := Some(Node(c.answers[n.id].question.value, Question));
      }
    } else if n.kind == Question && n.id in c.questions && Truthy(c.questions[n.id].parentContentId) {
      var p := c.questions[n.id].parentContentId.value;
      if p in c.questions { next := Some(Node(p, Question)); }
      else if p in c.answers { next := Some(Node(p, Answer)); }
    }
    if next.Some? {
      var rest := ComputeAncestors(c, next.value, seen, depth + 1);
      r := PushDeeper(r, rest);
    }
  }

  method PushDeeper(ancestors: seq<Ancestor>, more: seq<Ancestor>) returns (r: seq<Ancestor>)
    ensures r == ancestors + Shift(more)
  {
    r := ancestors;
    for k := 0 to |more|
      invariant |r| == |ancestors| + k
      invariant forall i :: 0 <= i < |r| ==>
                  r[i] == if i < |ancestors| then ancestors[i]
                          else Ancestor(more[i - |ancestors|].node, more[i - |ancestors|].depth + 1)
    {
      r := r + [Ancestor(more[k].node, more[k].depth + 1)];
    }
  }

  // ---------------------------------------------------------------- what it computes

  /** The k-th node of the parent chain that starts at `n`. */
  function Chain(c: Content, n: Node, k: nat): Option<Node>
    decreases k
  {
    if k == 0 then Some(n)
    else if Next(c, n).None? then None
    else Chain(c, Next(c, n).value, k - 1)
  }

  predicate Fresh(r: seq<Ancestor>, id: Id, visited: set<Id>) {
    id !in visited && forall i :: 0 <= i < |r| ==> r[i].node.id != id
  }

  /** `r` lists a prefix of the chain, nearest first and numbered by depth, without a repeat and
      avoiding `visited`. */
  predicate Prefix(c: Content, n: Node, visited: set<Id>, limit: nat, r: seq<Ancestor>) {
    && |r| <= limit
    && (forall k :: 0 <= k < |r| ==> Chain(c, n, k) == Some(r[k].node) && r[k].depth == k)
    && forall k :: 0 <= k < |r| ==> Fresh(r[..k], r[k].node.id, visited)
  }

  predicate CanGrow(c: Content, n: Node, visited: set<Id>, limit: nat, r: seq<Ancestor>) {
    |r| < limit && Chain(c, n, |r|).Some? && Fresh(r, Chain(c, n, |r|).value.id, visited)
  }

  /** ... and it stops only at `limit`, at the chain's end or before a repeat. */
  predicate LongestPrefix(c: Content, n: Node, visited: set<Id>, limit: nat, r: seq<Ancestor>) {
    Prefix(c, n, visited, limit, r) && !CanGrow(c, n, visited, limit, r)
  }

  lemma ShorterCanGrow(c: Content, n: Node, visited: set<Id>, limit: nat, r: seq<Ancestor>, s: seq<Ancestor>)
    requires Prefix(c, n, visited, limit, r) && Prefix(c, n, visited, limit, s)
    ensures |r| < |s| ==> CanGrow(c, n, visited, limit, r)
  {
    if |r| < |s| {
      assert s[..|r|] == r;
      assert Fresh(s[..|r|], s[|r|].node.id, visited);
    }
  }

  lemma LongestPrefixIsUnique(c: Content, n: Node, visited: set<Id>, limit: nat, r: seq<Ancestor>, s: seq<Ancestor>)
    requires LongestPrefix(c, n, visited, limit, r) && LongestPrefix(c, n, visited, limit, s)
    ensures r == s
  {
    ShorterCanGrow(c, n, visited, limit, r, s);
    ShorterCanGrow(c, n, visited, limit, s, r);
  }

  lemma FreshCons(n: Node, rest: seq<Ancestor>, id: Id, visited: set<Id>)
    requires n.id !in visited
    ensures Fresh([Ancestor(n, 0)] + Shift(rest), id, visited) <==> Fresh(rest, id, visited + {n.id})
  {
    var tail := Shift(rest);
    var r := [Ancestor(n, 0)] + tail;
    assert r[0].node == n && forall i :: 0 < i < |r| ==> r[i] == tail[i - 1];
    assert forall i :: 0 <= i < |rest| ==> r[i + 1] == tail[i];
    if Fresh(r, id, visited) {
      forall i | 0 <= i < |rest| ensures rest[i].node.id != id {
        assert r[i + 1].node == rest[i].node;
      }
    }
  }

  lemma {:induction false} AncestorsIsLongestPrefix(c: Content, n: Node, visited: set<Id>, depth: nat)
    requires depth <= MAX_DEPTH
    ensures LongestPrefix(c, n, visited, MAX_DEPTH - depth, Ancestors(c, n, visited, depth))
    decreases MAX_DEPTH - depth
  {
    if depth < MAX_DEPTH && n.id !in visited && Next(c, n).Some? {
      var m, seen := Next(c, n).value, visited + {n.id};
      AncestorsIsLongestPrefix(c, m, seen, depth + 1);
      ConsLongestPrefix(c, n, visited, MAX_DEPTH - depth, Ancestors(c, m, seen, depth + 1));
    }
  }

  lemma ConsLongestPrefix(c: Content, n: Node, visited: set<Id>, limit: nat, rest: seq<Ancestor>)
    requires limit > 0 && n.id !in visited && Next(c, n).Some?
    requires LongestPrefix(c, Next(c, n).value, visited + {n.id}, limit - 1, rest)
    ensures LongestPrefix(c, n, visited, limit, [Ancestor(n, 0)] + Shift(rest))
  {
    var m, seen, r := Next(c, n).value, visited + {n.id}, [Ancestor(n, 0)] + Shift(rest);
    forall k | 0 <= k < |r|
      ensures Chain(c, n, k) == Some(r[k].node) && r[k].depth == k
      ensures Fresh(r[..k], r[k].node.id, visited)
    {
      if k > 0 {
        assert Chain(c, m, k - 1) == Some(rest[k - 1].node);
        assert r[..k] == [Ancestor(n, 0)] + Shift(rest[..k - 1]);
        FreshCons(n, rest[..k - 1], r[k].node.id, visited);
      }
    }
    if Chain(c, m, |rest|).Some? {
      assert Chain(c, n, |r|) == Chain(c, m, |rest|);
      FreshCons(n, rest, Chain(c, m, |rest|).value.id, visited);
    }
  }

  predicate Exists(c: Content, n: Node) {
    if n.kind == Question then n.id in c.questions else n.id in c.answers
  }

  /** From any starting question, on any graph, cyclic or not: the result is the longest prefix of the
      parent chain that has no repeat, avoids the start and has at most 50 elements, and only its
      last element may be missing from the loaded content. */
  lemma ComputedAncestors(c: Content, n: Node, start: Id, r: seq<Ancestor>)
    ensures r == Ancestors(c, n, {start}, 0) <==> LongestPrefix(c, n, {start}, 50, r)
    ensures r == Ancestors(c, n, {start}, 0) ==> forall k :: 0 <= k < |r| - 1 ==> Exists(c, r[k].node)
  {
    AncestorsIsLongestPrefix(c, n, {start}, 0);
    if LongestPrefix(c, n, {start}, 50, r) {
      LongestPrefixIsUnique(c, n, {start}, 50, r, Ancestors(c, n, {start}, 0));
      forall k | 0 <= k < |r| - 1 ensures Exists(c, r[k].node) {
        ChainStep(c, n, k);
        assert Chain(c, n, k + 1) == Some(r[k + 1].node);
      }
    }
  }

  lemma {:induction false} ChainStep(c: Content, n: Node, k: nat)
    ensures Chain(c, n, k + 1) == if Chain(c, n, k).None? then None else Next(c, Chain(c, n, k).value)
    decreases k
  {
    if k > 0 && Next(c, n).Some? {
      ChainStep(c, Next(c, n).value, k - 1);
    }
  }

  // ---------------------------------------------------------------- read off the fields

  /** The recorded parent of `n` is `m`: an answer's question, whether it exists or not; for a question a
      question of that id or, if there is none, an answer of that id. */
  predicate Leads(c: Content, n: Node, m: Node) {
    m.id != "" &&
    match n.kind
    case Answer => n.id in c.answers && c.answers[n.id].question == Some(m.id) && m.kind == Question
    case Question =>
      && n.id in c.questions && c.questions[n.id].parentContentId == Some(m.id)
      && if m.id in c.questions then m.kind == Question else m.id in c.answers && m.kind == Answer
  }

  predicate Names(r: seq<Ancestor>, id: Id) {
    exists i :: 0 <= i < |r| && r[i].node.id == id
  }

  /** The list starts at `n`, unless that is the start itself, and numbers its elements; each leads to the
      next; none is the start or listed before; and the last leads nowhere, or back to the start or to
      a listed one, or is the fiftieth. */
  ghost predicate Follows(c: Content, n: Node, start: Id, r: seq<Ancestor>) {
    && (r == [] <==> n.id == start)
    && (r != [] ==> r[0].node == n)
    && |r| <= 50
    && (forall k :: 0 <= k < |r| ==> r[k].depth == k && r[k].node.id != start && !Names(r[..k], r[k].node.id))
    && (forall k :: 0 < k < |r| ==> Leads(c, r[k - 1].node, r[k].node))
    && (r != [] && |r| < 50 ==>
          forall m :: Leads(c, r[|r| - 1].node, m) ==> m.id == start || Names(r, m.id))
  }

  lemma LeadsIff(c: Content, n: Node, m: Node)
    ensures Leads(c, n, m) <==> Next(c, n) == Some(m)
  {
  }

  lemma {:induction false} FollowsChain(c: Content, n: Node, start: Id, r: seq<Ancestor>, k: nat)
    requires Follows(c, n, start, r) && k < |r|
    ensures Chain(c, n, k) == Some(r[k].node)
  {
    if k > 0 {
      FollowsChain(c, n, start, r, k - 1);
      ChainStep(c, n, k - 1);
      LeadsIff(c, r[k - 1].node, r[k].node);
    }
  }

  lemma FreshIff(r: seq<Ancestor>, id: Id, start: Id)
    ensures Fresh(r, id, {start}) <==> id != start && !Names(r, id)
  {
  }

  lemma FollowsIsLongestPrefix(c: Content, n: Node, start: Id, r: seq<Ancestor>)
    requires Follows(c, n, start, r)
    ensures LongestPrefix(c, n, {start}, 50, r)
  {
    forall k | 0 <= k < |r|
      ensures Chain(c, n, k) == Some(r[k].node) && Fresh(r[..k], r[k].node.id, {start})
    {
      FollowsChain(c, n, start, r, k);
      FreshIff(r[..k], r[k].node.id, start);
    }
    if |r| < 50 && Chain(c, n, |r|).Some? {
      var m := Chain(c, n, |r|).value;
      FreshIff(r, m.id, start);
      if r != [] {
        ChainStep(c, n, |r| - 1);
        LeadsIff(c, r[|r| - 1].node, m);
      }
    }
  }

  lemma LongestPrefixFollows(c: Content, n: Node, start: Id, r: seq<Ancestor>)
    requires LongestPrefix(c, n, {start}, 50, r)
    ensures Follows(c, n, start, r)
  {
    assert Chain(c, n, 0) == Some(n);
    assert r == [] ==> n.id == start by { if r == [] { FreshIff(r, n.id, start); } }
    forall k | 0 <= k < |r| ensures r[k].node.id != start && !Names(r[..k], r[k].node.id) {
      FreshIff(r[..k], r[k].node.id, start);
    }
    forall k | 0 < k < |r| ensures Leads(c, r[k - 1].node, r[k].node) {
      ChainStep(c, n, k - 1);
      LeadsIff(c, r[k - 1].node, r[k].node);
    }
    if r != [] && |r| < 50 {
      ChainStep(c, n, |r| - 1);
      forall m | Leads(c, r[|r| - 1].node, m) ensures m.id == start || Names(r, m.id) {
        LeadsIff(c, r[|r| - 1].node, m);
        FreshIff(r, m.id, start);
      }
    }
  }

  /** The computed list, read off the fields of the content: on any graph it is the one list that
      follows the recorded parents. */
  lemma ComputedFollowsFields(c: Content, n: Node, start: Id, r: seq<Ancestor>)
    ensures r == Ancestors(c, n, {start}, 0) <==> Follows(c, n, start, r)
  {
    AncestorsIsLongestPrefix(c, n, {start}, 0);
    if r == Ancestors(c, n, {start}, 0) { LongestPrefixFollows(c, n, start, r); }
    if Follows(c, n, start, r) {
      FollowsIsLongestPrefix(c, n, start, r);
      LongestPrefixIsUnique(c, n, {start}, 50, r, Ancestors(c, n, {start}, 0));
    }
  }

  // ---------------------------------------------------------------- the backfill

  /** The questions the backfill's query selects. */
  predicate Selected(d: QuestionDoc) {
    d.parentContentId.Some? || d.ancestors.None? || d.ancestors.value == []
  }

  function ParentNode(c: Content, p: Id): Node {
    Node(p, if p !in c.questions && p in c.answers then Answer else Question)
  }

  /** The ancestors the backfill computes for a question. */
  function Computed(c: Content, q: Id): seq<Ancestor>
    requires q in c.questions
  {
    var p := c.questions[q].parentContentId;
    if Truthy(p) then Ancestors(c, ParentNode(c, p.value), {q}, 0) else []
  }

  datatype Update = Update(ancestors: seq<Ancestor>, parent: Option<Node>)

  function Updated(d: QuestionDoc, a: seq<Ancestor>): QuestionDoc {
    if |a| > 0 then d.(ancestors := Some(a), parent := Some(a[0].node)) else d.(ancestors := Some([]))
  }

  function UpdateOf(a: seq<Ancestor>): Update {
    Update(a, if |a| > 0 then Some(a[0].node) else None)
  }

  function ComputedAll(c: Content): (r: map<Id, seq<Ancestor>>)
    ensures r.Keys == c.questions.Keys
  {
    map q | q in c.questions :: Computed(c, q)
  }

  /** The table holds what is computed for each of the ids. */
  ghost predicate Tabulated(c: Content, computed: map<Id, seq<Ancestor>>, ids: seq<Id>) {
    forall q {:trigger q in ids} :: q in ids ==> q in c.questions && q in computed && computed[q] == Computed(c, q)
  }

  lemma TableHolds(c: Content, ids: seq<Id>)
    requires forall q :: q in ids ==> q in c.questions
    ensures Tabulated(c, ComputedAll(c), ids)
  {
  }

  lemma BatchTabulated(c: Content, computed: map<Id, seq<Ancestor>>, ids: seq<Id>, i: nat, end: nat)
    requires Tabulated(c, computed, ids) && i <= end <= |ids|
    ensures Tabulated(c, computed, ids[i..end]) && forall q :: q in ids[i..end] ==> q in computed
    ensures ids[..i] + ids[i..end] == ids[..end]
  {
    assert forall q :: q in ids[i..end] ==> q in ids;
  }

  /** The questions once those in `done` have been updated from the table `computed`. */
  function Written(questions: map<Id, QuestionDoc>, computed: map<Id, seq<Ancestor>>,
                   done: seq<Id>): map<Id, QuestionDoc>
    requires questions.Keys == computed.Keys
  {
    map q | q in questions :: if q in done then Updated(questions[q], computed[q]) else questions[q]
  }

  /** The whole question backfill, with no batches in it. */
  function Backfilled(c: Content): Content {
    c.(questions := map q | q in c.questions ::
      if Selected(c.questions[q]) then Updated(c.questions[q], Computed(c, q)) else c.questions[q])
  }

  function AnswerAncestors(c: Content, a: Id): seq<Ancestor>
    requires a in c.answers
  {
    var q := QuestionIdOf(c.answers[a]);
    [Ancestor(Node(a, Answer), 0)] +
    if q !in c.questions then []
    else if c.questions[q].ancestors.Some? && c.questions[q].ancestors.value != [] then
      Shift(c.questions[q].ancestors.value)
    else [Ancestor(Node(q, Question), 1)]
  }

  /** String(undefined) is a name like any other. */
  function QuestionIdOf(d: AnswerDoc): Id {
    if d.question.Some? then d.question.value else "undefined"
  }

  class AncestorsBackfill {
    var content: Content

    constructor (content: Content)
      ensures this.content == content
    {
      this.content := content;
    }

    /** `order` is how the store happens to list the selected questions. */
    method BackfillQuestions(order: seq<Id>)
      requires forall q :: q in order <==> q in content.questions && Selected(content.questions[q])
      modifies this
      ensures content == Backfilled(old(content))
    {
      ghost var loaded := content;
      TableHolds(loaded, order);
      WriteBatches(content, ComputedAll(loaded), order);
      WrittenIsBackfilled(loaded, order);
    }

    /** The batches: each is prepared from what was loaded at the start, then written. */
    method WriteBatches(loaded: Content, ghost computed: map<Id, seq<Ancestor>>, order: seq<Id>)
      requires content == loaded && computed.Keys == loaded.questions.Keys && Tabulated(loaded, computed, order)
      modifies this
      ensures content.answers == loaded.answers
      ensures content.questions == Written(loaded.questions, computed, order)
    {
      var i := 0;
      assert content.questions == Written(loaded.questions, computed, order[..0]);
      while i < |order|
        invariant 0 <= i <= |order|
        invariant content.answers == loaded.answers
        invariant content.questions == Written(loaded.questions, computed, order[..i])
      {
        var end := if i + BATCH_SIZE < |order| then i + BATCH_SIZE else |order|;
        var batch := order[i..end];
        BatchTabulated(loaded, computed, order, i, end);
        var bulk := PrepareUpdates(loaded, computed, batch);
        WriteUpdates(loaded.questions, computed, order[..i], batch, bulk);
        i := end;
      }
      assert order[..i] == order;
    }

    static method PrepareUpdates(loaded: Content, ghost computed: map<Id, seq<Ancestor>>, batch: seq<Id>)
      returns (bulk: seq<Update>)
      requires Tabulated(loaded, computed, batch) && forall q :: q in batch ==> q in computed
      ensures |bulk| == |batch|
      ensures forall k :: 0 <= k < |bulk| ==> bulk[k] == UpdateOf(computed[batch[k]])
    {
      bulk := [];
      for k := 0 to |batch|
        invariant |bulk| == k
        invariant forall j :: 0 <= j < k ==> bulk[j] == UpdateOf(computed[batch[j]])
      {
        assert batch[k] in batch;
        var update := PrepareUpdate(loaded, computed, batch[k]);
        bulk := bulk + [update];
      }
    }

    static method PrepareUpdate(loaded: Content, ghost computed: map<Id, seq<Ancestor>>, q: Id) returns (update: Update)
      requires Tabulated(loaded, computed, [q]) && q in computed
      ensures update == UpdateOf(computed[q])
    {
      assert q in [q];
      var question := loaded.questions[q];
      var ancestors: seq<Ancestor> := [];
      if Truthy(question.parentContentId) {
        var parentId := question.parentContentId.value;
        var parentType := Question;
        if parentId in loaded.questions { parentType := Question; }
        else if parentId in loaded.answers { parentType := Answer; }
        ancestors := ComputeAncestors(loaded, Node(parentId, parentType), {q}, 0);
      }
      update := Update(ancestors, None);
      if |ancestors| > 0 {
        update := update.(parent := Some(ancestors[0].node));
      }
    }

    method WriteUpdates(ghost before: map<Id, QuestionDoc>, ghost computed: map<Id, seq<Ancestor>>, ghost done: seq<Id>,
                        batch: seq<Id>, bulk: seq<Update>)
      requires before.Keys == computed.Keys && content.questions == Written(before, computed, done)
      requires |bulk| == |batch| && forall q :: q in batch ==> q in computed
      requires forall k :: 0 <= k < |bulk| ==> bulk[k] == UpdateOf(computed[batch[k]])
      modifies this
      ensures content.questions == Written(before, computed, done + batch) && content.answers == old(content.answers)
    {
      assert done + batch[..0] == done;
      for k := 0 to |batch|
        invariant content.answers == old(content.answers)
        invariant content.questions == Written(before, computed, done + batch[..k])
      {
        var q := batch[k];
        assert q in content.questions;
        var was := content.questions[q].(ancestors := Some(bulk[k].ancestors));
        if bulk[k].parent.Some? { was := was.(parent := bulk[k].parent); }
        content := content.(questions := content.questions[q := was]);
        OneMoreWritten(before, computed, done + batch[..k], q);
        assert done + batch[..k + 1] == done + batch[..k] + [q];
      }
      assert done + batch[..|batch|] == done + batch;
    }

    /** The ancestors written for one answer. */
    method AnswerUpdate(a: Id) returns (ancestors: seq<Ancestor>)
      requires a in content.answers
      ensures ancestors == AnswerAncestors(content, a)
    {
      ancestors := [Ancestor(Node(a, Answer), 0)];
      var questionId := QuestionIdOf(content.answers[a]);
      if questionId in content.questions {
        var question := content.questions[questionId];
        if question.ancestors.Some? && |question.ancestors.value| > 0 {
          ancestors := PushDeeper(ancestors, question.ancestors.value);
        } else {
          ancestors := ancestors + [Ancestor(Node(questionId, Question), 1)];
        }
      }
    }
  }

  /** Writing one more question's update, even one written before, adds it to those done. */
  lemma OneMoreWritten(before: map<Id, QuestionDoc>, computed: map<Id, seq<Ancestor>>, done: seq<Id>, q: Id)
    requires before.Keys == computed.Keys && q in before
    ensures var was, a := Written(before, computed, done)[q], computed[q];
            Written(before, computed, done + [q])
            == Written(before, computed, done)
               [q := was.(ancestors := Some(a), parent := if |a| > 0 then Some(a[0].node) else was.parent)]
  {
  }

  lemma WrittenIsBackfilled(c: Content, order: seq<Id>)
    requires forall q :: q in order <==> q in c.questions && Selected(c.questions[q])
    ensures Written(c.questions, ComputedAll(c), order) == Backfilled(c).questions
  {
  }

  /** What the backfill stores, read off the fields. A question with a parent, without ancestors or with
      none listed is selected and gets the list that follows its parent, and the first of the list as
      its parent; any other question, and every answer, stays as it was. */
  lemma BackfillFollowsFields(c: Content, q: Id)
    requires q in c.questions
    ensures var was, now := c.questions[q], Backfilled(c).questions[q];
            && Backfilled(c).questions.Keys == c.questions.Keys && Backfilled(c).answers == c.answers
            && now.parentContentId == was.parentContentId
            && if was.parentContentId == None && was.ancestors != None && was.ancestors != Some([]) then now == was
               else
                 && now.ancestors.Some?
                 && (was.parentContentId == None || was.parentContentId == Some("") ==> now.ancestors == Some([]))
                 && (was.parentContentId != None && was.parentContentId != Some("") ==>
                       var p := was.parentContentId.value;
                       var kind := if p in c.questions || p !in c.answers then Question else Answer;
                       Follows(c, Node(p, kind), q, now.ancestors.value))
                 && now.parent == if now.ancestors == Some([]) then was.parent else Some(now.ancestors.value[0].node)
  {
    var p := c.questions[q].parentContentId;
    if Truthy(p) {
      ComputedFollowsFields(c, ParentNode(c, p.value), q, Computed(c, q));
    }
  }

  /** A question under an answer: its ancestors are the answer and the question that one answers. */
  lemma AnswerParentIsFollowed(q: Id, a: Id, p: Id)
    requires q != a && q != p && a != p && q != "" && a != "" && p != ""
    ensures var c := Content(map[p := QuestionDoc(None, None, None), q := QuestionDoc(Some(a), None, None)],
                             map[a := AnswerDoc(Some(p), None)]);
            Backfilled(c).questions[q].ancestors == Some([Ancestor(Node(a, Answer), 0), Ancestor(Node(p, Question), 1)])
  {
    var c := Content(map[p := QuestionDoc(None, None, None), q := QuestionDoc(Some(a), None, None)],
                     map[a := AnswerDoc(Some(p), None)]);
    var r := [Ancestor(Node(a, Answer), 0), Ancestor(Node(p, Question), 1)];
    assert r[..0] == [] && r[..1] == [r[0]];
    assert Leads(c, r[0].node, r[1].node);
    assert Follows(c, Node(a, Answer), q, r);
    ComputedFollowsFields(c, Node(a, Answer), q, r);
  }

  // ---------------------------------------------------------------- a second run changes nothing

  /** Same parent pointers, whatever the stored index says. */
  ghost predicate SamePointers(c: Content, d: Content) {
    && c.answers == d.answers
    && c.questions.Keys == d.questions.Keys
    && forall q :: q in c.questions ==> c.questions[q].parentContentId == d.questions[q].parentContentId
  }

  lemma {:induction false} PointersDecide(c: Content, d: Content, n: Node, visited: set<Id>, depth: nat)
    requires SamePointers(c, d)
    ensures Ancestors(c, n, visited, depth) == Ancestors(d, n, visited, depth)
    decreases MAX_DEPTH - depth
  {
    SameNext(c, d, n);
    if depth < MAX_DEPTH && n.id !in visited && Next(c, n).Some? {
      PointersDecide(c, d, Next(c, n).value, visited + {n.id}, depth + 1);
    }
  }

  lemma SameNext(c: Content, d: Content, n: Node)
    requires SamePointers(c, d)
    ensures Next(c, n) == Next(d, n)
  {
    assert forall q :: q in c.questions <==> q in d.questions;
  }

  lemma SameComputed(c: Content, d: Content, q: Id)
    requires SamePointers(c, d) && q in c.questions && q in d.questions
    ensures Computed(c, q) == Computed(d, q)
  {
    var p := c.questions[q].parentContentId;
    if Truthy(p) {
      assert p.value in c.questions <==> p.value in d.questions;
      PointersDecide(c, d, ParentNode(c, p.value), {q}, 0);
    }
  }

  /** On any graph, a second backfill changes nothing. */
  lemma BackfillIsIdempotent(c: Content)
    ensures Backfilled(Backfilled(c)) == Backfilled(c)
  {
    var d := Backfilled(c);
    assert SamePointers(c, d);
    forall q | q in c.questions ensures Backfilled(d).questions[q] == d.questions[q] {
      SameComputed(c, d, q);
    }
    assert Backfilled(d).questions == d.questions;
  }

  // ---------------------------------------------------------------- the index against the pointers

  predicate Mentions(a: seq<Ancestor>, id: Id) {
    exists k :: 0 <= k < |a| && a[k].node.id == id
  }

  /** The question's recorded parent is in neither collection. */
  predicate Dangling(c: Content, q: Id)
    requires q in c.questions
  {
    var p := c.questions[q].parentContentId;
    Truthy(p) && p.value !in c.questions && p.value !in c.answers
  }

  lemma ShiftInjective(a: seq<Ancestor>, b: seq<Ancestor>)
    ensures Shift(a) == Shift(b) <==> a == b
  {
    if Shift(a) == Shift(b) {
      forall k | 0 <= k < |a| ensures a[k] == b[k] {
        assert Shift(a)[k] == Shift(b)[k];
      }
    }
  }

  /** Looking from one step further down changes nothing exactly when the new start is not met and
      one more element still fits. */
  lemma ForbiddingOneMore(c: Content, m: Node, p: Id, q: Id)
    ensures var a := Ancestors(c, m, {p}, 0);
            a == Ancestors(c, m, {q} + {p}, 1) <==> !Mentions(a, q) && |a| < 50
  {
    var a, b := Ancestors(c, m, {p}, 0), Ancestors(c, m, {q} + {p}, 1);
    AncestorsIsLongestPrefix(c, m, {p}, 0);
    AncestorsIsLongestPrefix(c, m, {q} + {p}, 1);
    if a == b {
      forall k | 0 <= k < |a| ensures a[k].node.id != q {
        assert Fresh(b[..k], b[k].node.id, {q} + {p});
      }
    } else if !Mentions(a, q) && |a| < 50 {
      forall k | 0 <= k < |a| ensures Fresh(a[..k], a[k].node.id, {q} + {p}) {
        assert Fresh(a[..k], a[k].node.id, {p});
      }
      LongestPrefixIsUnique(c, m, {q} + {p}, 49, a, b);
    }
  }

  /** The first `n` nodes of the parent chain exist, under different ids. */
  predicate Distinct(c: Content, start: Node, n: nat) {
    && (forall k :: 0 <= k < n ==> Chain(c, start, k).Some?)
    && forall i, k :: 0 <= i < k < n ==> Chain(c, start, i).value.id != Chain(c, start, k).value.id
  }

  /** The chain is over after `n` nodes: it ends there, or comes back to one of them. */
  predicate OverAfter(c: Content, start: Node, n: nat)
    requires Distinct(c, start, n)
  {
    Chain(c, start, n).None? || exists i :: 0 <= i < n && Chain(c, start, i).value.id == Chain(c, start, n).value.id
  }

  /** The parent chain of question `p` is over within 50 nodes, `p` included, and `q` is none of them. */
  predicate ShortPath(c: Content, p: Id, q: Id) {
    exists n | 0 < n <= 50 :: ShortPathOf(c, Node(p, Question), q, n)
  }

  predicate ShortPathOf(c: Content, start: Node, q: Id, n: nat) {
    Distinct(c, start, n) && OverAfter(c, start, n) && forall k :: 0 <= k < n ==> Chain(c, start, k).value.id != q
  }

  lemma ParentsPrefixIsPath(c: Content, start: Node, m: Node, a: seq<Ancestor>)
    requires Next(c, start) == Some(m) && LongestPrefix(c, m, {start.id}, 50, a)
    ensures Distinct(c, start, |a| + 1)
    ensures forall k :: 0 <= k < |a| ==> Chain(c, start, k + 1) == Some(a[k].node)
    ensures |a| < 50 ==> OverAfter(c, start, |a| + 1)
  {
    assert forall k :: 0 < k <= |a| ==> Chain(c, start, k) == Some(a[k - 1].node);
    forall i, k | 0 <= i < k < |a| + 1 ensures Chain(c, start, i).value.id != Chain(c, start, k).value.id {
      assert Fresh(a[..k - 1], a[k - 1].node.id, {start.id});
      if i > 0 { assert a[..k - 1][i - 1].node.id != a[k - 1].node.id; }
    }
    if |a| < 50 && Chain(c, m, |a|).Some? {
      var id := Chain(c, m, |a|).value.id;
      assert Chain(c, start, |a| + 1).value.id == id && !Fresh(a, id, {start.id});
      if id == start.id {
        assert Chain(c, start, 0).value.id == id;
      } else {
        var i :| 0 <= i < |a| && a[i].node.id == id;
        assert Chain(c, start, i + 1).value.id == id;
      }
    }
  }

  lemma PathIsParentsPrefix(c: Content, start: Node, m: Node, n: nat)
    requires Next(c, start) == Some(m) && 0 < n <= 50 && Distinct(c, start, n) && OverAfter(c, start, n)
    ensures var a := Ancestors(c, m, {start.id}, 0);
            |a| == n - 1 && forall k :: 0 <= k < |a| ==> Chain(c, start, k + 1) == Some(a[k].node)
  {
    var a := Ancestors(c, m, {start.id}, 0);
    var b := seq(n - 1, k requires 0 <= k < n - 1 => Ancestor(Chain(c, start, k + 1).value, k));
    AncestorsIsLongestPrefix(c, m, {start.id}, 0);
    forall k | 0 <= k < |b| ensures Fresh(b[..k], b[k].node.id, {start.id}) {
      assert Chain(c, start, 0).value.id != Chain(c, start, k + 1).value.id;
      forall i | 0 <= i < k ensures b[i].node.id != b[k].node.id {
        assert Chain(c, start, i + 1).value.id != Chain(c, start, k + 1).value.id;
      }
    }
    if Chain(c, start, n).Some? {
      var i :| 0 <= i < n && Chain(c, start, i).value.id == Chain(c, start, n).value.id;
      assert i > 0 ==> b[i - 1].node.id == Chain(c, m, |b|).value.id;
    }
    LongestPrefixIsUnique(c, m, {start.id}, 50, a, b);
  }

  /** What the parent's own list decides can be read off the pointers. */
  lemma ShortPathIff(c: Content, p: Id, q: Id)
    requires p in c.questions && !Dangling(c, p)
    ensures ShortPath(c, p, q) <==> p != q && !Mentions(Computed(c, p), q) && |Computed(c, p)| < 50
  {
    var start := Node(p, Question);
    if p == q {
      assert Chain(c, start, 0) == Some(start);
    } else if Next(c, start).None? {
      assert Distinct(c, start, 1) && OverAfter(c, start, 1) && ShortPathOf(c, start, q, 1);
    } else {
      var m, a := Next(c, start).value, Computed(c, p);
      assert a == Ancestors(c, m, {p}, 0);
      AncestorsIsLongestPrefix(c, m, {p}, 0);
      ParentsPrefixIsPath(c, start, m, a);
      if !Mentions(a, q) && |a| < 50 {
        assert ShortPathOf(c, start, q, |a| + 1);
      }
      if ShortPath(c, p, q) {
        var n :| 0 < n <= 50 && ShortPathOf(c, start, q, n);
        PathIsParentsPrefix(c, start, m, n);
        forall k | 0 <= k < |a| ensures a[k].node.id != q {
          assert Chain(c, start, k + 1).value.id != q;
        }
      }
    }
  }

  /** The exact condition, on any graph, under which a question's ancestors are its parent followed by
      the parent's ancestors one level up. */
  lemma ComputedFollowsParentIff(c: Content, q: Id, p: Id)
    requires q in c.questions && p in c.questions && c.questions[q].parentContentId == Some(p)
    ensures Computed(c, q) == [Ancestor(Node(p, Question), 0)] + Shift(Computed(c, p))
            <==> p != "" && !Dangling(c, p) && ShortPath(c, p, q)
  {
    var n := Node(p, Question);
    if !Dangling(c, p) { ShortPathIff(c, p, q); }
    if p == "" || p == q {
      assert Computed(c, q) == [];
    } else if Next(c, n).Some? {
      var m := Next(c, n).value;
      var a, b := Ancestors(c, m, {p}, 0), Ancestors(c, m, {q} + {p}, 1);
      assert Computed(c, p) == a && Computed(c, q) == [Ancestor(n, 0)] + Shift(b);
      ForbiddingOneMore(c, m, p, q);
      ShiftInjective(a, b);
      assert ([Ancestor(n, 0)] + Shift(b))[1..] == Shift(b) && ([Ancestor(n, 0)] + Shift(a))[1..] == Shift(a);
    } else {
      assert Computed(c, q) == [Ancestor(n, 0)];
    }
  }

  function StoredAncestors(c: Content, q: Id): seq<Ancestor>
    requires q in c.questions
  {
    if c.questions[q].ancestors.Some? then c.questions[q].ancestors.value else []
  }

  /** After the backfill the stored index agrees with the stored parent pointer of a question `q` with
      question parent `p` exactly when `p` was itself selected, has no dangling parent, and its parent
      chain is over within 50 nodes without meeting `q`. `parent` is set right in any case, unless the
      question is its own parent, or its parent's id is the empty string: then `parent` stays as it was. */
  lemma StoredIndexFollowsParentIff(c: Content, q: Id, p: Id)
    requires q in c.questions && p in c.questions && c.questions[q].parentContentId == Some(p)
    ensures var d := Backfilled(c);
            && d.questions[q].parent == (if p == q || p == "" then c.questions[q].parent else Some(Node(p, Question)))
            && (StoredAncestors(d, q) == [Ancestor(Node(p, Question), 0)] + Shift(StoredAncestors(d, p))
                <==> p != "" && Selected(c.questions[p]) && !Dangling(c, p) && ShortPath(c, p, q))
  {
    ComputedFollowsParentIff(c, q, p);
    var d := Backfilled(c);
    assert StoredAncestors(d, q) == Computed(c, q);
    if Selected(c.questions[p]) {
      assert StoredAncestors(d, p) == Computed(c, p);
    } else {
      assert Next(c, Node(p, Question)).None?;
      assert Computed(c, q) == if p == "" then [] else [Ancestor(Node(p, Question), 0)];
      assert |Shift(StoredAncestors(d, p))| > 0;
    }
  }

  lemma {:induction false} RankFalls(c: Content, rank: Node -> nat, n: Node, k: nat)
    requires forall m :: Next(c, m).Some? ==> rank(Next(c, m).value) < rank(m)
    requires Chain(c, n, k).Some?
    ensures rank(Chain(c, n, k).value) <= rank(n)
    ensures k > 0 && Chain(c, n, k).value.id in c.questions ==> Chain(c, n, k).value.kind == Question
    decreases k
  {
    if k > 0 {
      ChainStep(c, n, k - 1);
      RankFalls(c, rank, n, k - 1);
    }
  }

  /** On an acyclic graph whose chains stay below 50 the stored index is the recursion it stands for. */
  lemma AcyclicIndexFollowsParent(c: Content, rank: Node -> nat, q: Id, p: Id)
    requires forall m :: Next(c, m).Some? ==> rank(Next(c, m).value) < rank(m)
    requires q in c.questions && p in c.questions && p != ""
    requires c.questions[q].parentContentId == Some(p)
    requires Selected(c.questions[p]) && !Dangling(c, p) && Chain(c, Node(p, Question), 50).None?
    ensures var d := Backfilled(c);
            StoredAncestors(d, q) == [Ancestor(Node(p, Question), 0)] + Shift(StoredAncestors(d, p))
  {
    var a := Computed(c, p);
    assert Next(c, Node(q, Question)) == Some(Node(p, Question));
    if Truthy(c.questions[p].parentContentId) {
      var n := ParentNode(c, c.questions[p].parentContentId.value);
      assert Next(c, Node(p, Question)) == Some(n);
      AncestorsIsLongestPrefix(c, n, {p}, 0);
      ParentsPrefixIsPath(c, Node(p, Question), n, a);
      forall k | 0 <= k < |a| ensures a[k].node.id != q {
        RankFalls(c, rank, n, k);
        assert rank(a[k].node) < rank(Node(q, Question));
      }
    }
    RanksDiffer(c, rank, q, p);
    ShortPathIff(c, p, q);
    StoredIndexFollowsParentIff(c, q, p);
  }

  lemma RanksDiffer(c: Content, rank: Node -> nat, q: Id, p: Id)
    requires forall m :: Next(c, m).Some? ==> rank(Next(c, m).value) < rank(m)
    requires Next(c, Node(q, Question)) == Some(Node(p, Question))
    ensures p != q
  {
    assert rank(Node(p, Question)) < rank(Node(q, Question));
  }

  // ---------------------------------------------------------------- answers

  predicate Numbered(a: seq<Ancestor>) {
    forall k :: 0 <= k < |a| ==> a[k].depth == k
  }

  predicate Lists(a: seq<Ancestor>, n: Node) {
    exists k :: 0 <= k < |a| && a[k].node == n
  }

  /** Whatever the content: an answer's ancestors are numbered 0, 1, 2, ... exactly when its question's
      stored ancestors are, and they list the question it answers exactly when that question is
      there and stores no ancestors, or stores itself among them. */
  lemma AnswerListsQuestionIff(c: Content, a: Id)
    requires a in c.answers
    ensures var q, r := QuestionIdOf(c.answers[a]), AnswerAncestors(c, a);
            && (Numbered(r) <==> q in c.questions ==> Numbered(StoredAncestors(c, q)))
            && (Lists(r, Node(q, Question))
                <==> q in c.questions && (StoredAncestors(c, q) == [] || Lists(StoredAncestors(c, q), Node(q, Question))))
  {
    var q, r := QuestionIdOf(c.answers[a]), AnswerAncestors(c, a);
    if q in c.questions {
      var own := StoredAncestors(c, q);
      if own == [] {
        assert r[1] == Ancestor(Node(q, Question), 1);
      } else {
        assert r == [Ancestor(Node(a, Answer), 0)] + Shift(own);
        PushedDeeper(Ancestor(Node(a, Answer), 0), own, Node(q, Question));
      }
    }
  }

  /** Element by element: the answer, and then its question's stored ancestors one deeper each, or the
      question alone if it stores none, or nothing if there is no such question. An answer without a
      question looks for one called "undefined". */
  lemma AnswerAncestorsAt(c: Content, a: Id, k: nat)
    requires a in c.answers && k < |AnswerAncestors(c, a)|
    ensures var r := AnswerAncestors(c, a);
            var q := match c.answers[a].question case Some(id) => id case None => "undefined";
            && r[0] == Ancestor(Node(a, Answer), 0)
            && (q !in c.questions ==> |r| == 1)
            && (q in c.questions ==>
                  var own := match c.questions[q].ancestors case Some(s) => s case None => [];
                  if own == [] then r[1..] == [Ancestor(Node(q, Question), 1)]
                  else |r| == |own| + 1 && (k > 0 ==> r[k] == Ancestor(own[k - 1].node, own[k - 1].depth + 1)))
  {
  }

  lemma PushedDeeper(first: Ancestor, own: seq<Ancestor>, n: Node)
    requires first.depth == 0 && first.node != n
    ensures var r := [first] + Shift(own);
            && (Numbered(r) <==> Numbered(own))
            && (Lists(r, n) <==> Lists(own, n))
  {
    var r := [first] + Shift(own);
    NumberedDeeper(r, own);
    ListedDeeper(r, own, n);
  }

  predicate OneDeeper(r: seq<Ancestor>, own: seq<Ancestor>) {
    && |r| == |own| + 1 && r[0].depth == 0
    && forall k :: 0 < k < |r| ==> r[k] == Ancestor(own[k - 1].node, own[k - 1].depth + 1)
  }

  lemma NumberedDeeper(r: seq<Ancestor>, own: seq<Ancestor>)
    requires OneDeeper(r, own)
    ensures Numbered(r) <==> Numbered(own)
  {
    if Numbered(r) {
      forall k | 0 <= k < |own| ensures own[k].depth == k {
        assert r[k + 1].depth == k + 1;
      }
    }
  }

  lemma ListedDeeper(r: seq<Ancestor>, own: seq<Ancestor>, n: Node)
    requires OneDeeper(r, own) && r[0].node != n
    ensures Lists(r, n) <==> Lists(own, n)
  {
    if Lists(own, n) {
      var k :| 0 <= k < |own| && own[k].node == n;
      assert r[k + 1].node == n;
    }
  }

  /** Once questions are backfilled: the answer leaves its question out exactly when the question was
      selected and has a parent other than itself, or was not selected, so that it keeps ancestors
      from before, and those do not list it. */
  lemma BackfilledAnswerListsQuestionIff(c: Content, a: Id, q: Id)
    requires a in c.answers && q in c.questions && QuestionIdOf(c.answers[a]) == q
    ensures var r := AnswerAncestors(Backfilled(c), a);
            && (Selected(c.questions[q]) ==> Numbered(r))
            && (Lists(r, Node(q, Question))
                <==> if Selected(c.questions[q]) then
                       !Truthy(c.questions[q].parentContentId) || c.questions[q].parentContentId.value == q
                     else Lists(StoredAncestors(c, q), Node(q, Question)))
  {
    var d := Backfilled(c);
    AnswerListsQuestionIff(d, a);
    if Selected(c.questions[q]) {
      var own, p := Computed(c, q), c.questions[q].parentContentId;
      assert StoredAncestors(d, q) == own;
      if Truthy(p) {
        AncestorsIsLongestPrefix(c, ParentNode(c, p.value), {q}, 0);
        forall k | 0 <= k < |own| ensures own[k].node.id != q {
          assert Fresh(own[..k], own[k].node.id, {q});
        }
      }
    }
  }

  // ---------------------------------------------------------------- where the index goes wrong

  /** A root question that already carries ancestors is not selected, keeps them, and its child, whose
      list is computed from the pointers alone, does not repeat them: no cycle, no long chain. */
  lemma StaleAncestorsBreakTheIndex(stale: Ancestor)
    ensures var c := Content(map["p" := QuestionDoc(None, Some([stale]), None),
                                 "q" := QuestionDoc(Some("p"), None, None)], map[]);
            var d := Backfilled(c);
            StoredAncestors(d, "q") != [Ancestor(Node("p", Question), 0)] + Shift(StoredAncestors(d, "p"))
  {
    var c := Content(map["p" := QuestionDoc(None, Some([stale]), None), "q" := QuestionDoc(Some("p"), None, None)], map[]);
    assert "p" != "q" && !Selected(c.questions["p"]);
    StoredIndexFollowsParentIff(c, "q", "p");
  }

  /** An answer to a question that has a parent: its ancestors are itself and that parent; the question
      it answers is not among them. */
  lemma AnswerOmitsItsQuestion()
    ensures var c := Content(map["p" := QuestionDoc(None, None, None), "q" := QuestionDoc(Some("p"), None, None)],
                             map["a" := AnswerDoc(Some("q"), None)]);
            !Lists(AnswerAncestors(Backfilled(c), "a"), Node("q", Question))
  {
    var c := Content(map["p" := QuestionDoc(None, None, None), "q" := QuestionDoc(Some("p"), None, None)],
                     map["a" := AnswerDoc(Some("q"), None)]);
    assert "p" != "q";
    BackfilledAnswerListsQuestionIff(c, "a", "q");
  }
}
