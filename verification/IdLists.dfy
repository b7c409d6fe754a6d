/** Lists of ids used as sets: includes, filter and push of the JavaScript sources. */
module IdLists {
  type Id = string

  predicate NoDuplicates(s: seq<Id>) {
    forall i, j :: 0 <= i < j < |s| ==> s[i] != s[j]
  }

  function Remove(s: seq<Id>, x: Id): (r: seq<Id>)
    ensures forall y :: y in r <==> y in s && y != x
  {
    if s == [] then []
    else if s[0] == x then Remove(s[1..], x)
    else [s[0]] + Remove(s[1..], x)
  }

  lemma {:induction false} RemoveAbsent(s: seq<Id>, x: Id)
    requires x !in s
    ensures Remove(s, x) == s
  {
    if s != [] {
      RemoveAbsent(s[1..], x);
    }
  }

  /** Removing keeps the rest in order: it can be done part by part ... */
  lemma {:induction false} RemoveConcat(a: seq<Id>, b: seq<Id>, x: Id)
    ensures Remove(a + b, x) == Remove(a, x) + Remove(b, x)
  {
    if a == [] {
      assert a + b == b;
    } else {
      RemoveConcat(a[1..], b, x);
      assert (a + b)[1..] == a[1..] + b && (a + b)[0] == a[0];
    }
  }

  /** ... and takes out `x` alone. */
  lemma RemoveFromOne(x: Id, y: Id)
    ensures Remove([y], x) == if y == x then [] else [y]
  {
    assert [y][1..] == [] && Remove([y][1..], x) == [];
  }

  lemma {:induction false} RemoveKeeps(s: seq<Id>, x: Id)
    requires NoDuplicates(s)
    ensures NoDuplicates(Remove(s, x))
  {
    if s != [] {
      assert NoDuplicates(s[1..]) && s[0] !in s[1..];
      RemoveKeeps(s[1..], x);
    }
  }

  lemma {:induction false} RemoveAppended(s: seq<Id>, x: Id)
    ensures Remove(s + [x], x) == Remove(s, x)
  {
    if s == [] {
      assert s + [x] == [x] && [x][1..] == [];
    } else {
      assert (s + [x])[1..] == s[1..] + [x];
      RemoveAppended(s[1..], x);
    }
  }

  lemma AppendKeeps(s: seq<Id>, x: Id)
    requires NoDuplicates(s) && x !in s
    ensures NoDuplicates(s + [x])
  {
  }
}
