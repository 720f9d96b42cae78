/** The two list edits every card and page uses: `xs.map(x => x.id ===
    next.id ? next : x)` and `xs.filter(x => x.id !== id)`, for any element
    type with an id. */
module Collections {

  /** The ids of a list, in order. */
  function Ids<T>(xs: seq<T>, id: T -> string): seq<string> {
    seq(|xs|, i requires 0 <= i < |xs| => id(xs[i]))
  }

  predicate UniqueIds<T>(xs: seq<T>, id: T -> string) {
    forall i, j | 0 <= i < j < |xs| :: id(xs[i]) != id(xs[j])
  }

  /** Every element carrying `next`'s id is replaced by `next`; the rest stay
      where they are. */
  function ReplaceById<T>(xs: seq<T>, id: T -> string, next: T): (r: seq<T>)
    ensures |r| == |xs|
    ensures forall i | 0 <= i < |xs| :: r[i] == (if id(xs[i]) == id(next) then next else xs[i])
    ensures Ids(r, id) == Ids(xs, id)
  {
    var r := seq(|xs|, i requires 0 <= i < |xs| => if id(xs[i]) == id(next) then next else xs[i]);
    assert Ids(r, id) == Ids(xs, id);
    r
  }

  /** The elements whose id differs from `k`, in their original order. */
  function RemoveById<T>(xs: seq<T>, id: T -> string, k: string): (r: seq<T>)
    ensures |r| <= |xs|
    ensures forall y | y in r :: y in xs && id(y) != k
    ensures forall y | y in xs && id(y) != k :: y in r
  {
    if xs == [] then []
    else
      var rest := RemoveById(xs[1..], id, k);
      assert forall y | y in xs && y != xs[0] :: y in xs[1..];
      if id(xs[0]) == k then rest else [xs[0]] + rest
  }

  /** Removal keeps every other element as many times as it occurs, and
      never duplicates one. */
  lemma {:induction false} RemoveKeepsMultiplicity<T>(xs: seq<T>, id: T -> string, k: string)
    ensures multiset(RemoveById(xs, id, k)) <= multiset(xs)
    ensures forall y | y in xs && id(y) != k :: multiset(RemoveById(xs, id, k))[y] == multiset(xs)[y]
  {
    if xs != [] {
      var x, tail := xs[0], xs[1..];
      var rest := RemoveById(tail, id, k);
      RemoveKeepsMultiplicity(tail, id, k);
      assert xs == [x] + tail;
      assert multiset(xs) == multiset{x} + multiset(tail);
      if id(x) != k {
        assert multiset(RemoveById(xs, id, k)) == multiset{x} + multiset(rest);
      }
      forall y | y in xs && id(y) != k
        ensures multiset(RemoveById(xs, id, k))[y] == multiset(xs)[y]
      {
        if y !in tail {
          assert multiset(rest)[y] == 0;
        }
      }
    }
  }

  /** Replacing with an id nobody has changes nothing. */
  lemma ReplaceAbsentIsIdentity<T>(xs: seq<T>, id: T -> string, next: T)
    requires id(next) !in Ids(xs, id)
    ensures ReplaceById(xs, id, next) == xs
  {
    var r := ReplaceById(xs, id, next);
    forall i | 0 <= i < |xs| ensures r[i] == xs[i] {
      assert Ids(xs, id)[i] == id(xs[i]);
    }
  }

  /** Removing an id nobody has changes nothing. */
  lemma {:induction false} RemoveAbsentIsIdentity<T>(xs: seq<T>, id: T -> string, k: string)
    requires k !in Ids(xs, id)
    ensures RemoveById(xs, id, k) == xs
  {
    if xs != [] {
      assert Ids(xs, id)[0] == id(xs[0]);
      assert Ids(xs[1..], id) == Ids(xs, id)[1..];
      RemoveAbsentIsIdentity(xs[1..], id, k);
    }
  }

  /** Removal works element by element, so it keeps the relative order of
      what it keeps: it distributes over concatenation. */
  lemma {:induction false} RemoveDistributes<T>(a: seq<T>, b: seq<T>, id: T -> string, k: string)
    ensures RemoveById(a + b, id, k) == RemoveById(a, id, k) + RemoveById(b, id, k)
  {
    if a != [] {
      assert (a + b)[1..] == a[1..] + b;
      RemoveDistributes(a[1..], b, id, k);
    } else {
      assert a + b == b;
    }
  }

  /** Removal is idempotent. */
  lemma {:induction false} RemoveIdempotent<T>(xs: seq<T>, id: T -> string, k: string)
    ensures RemoveById(RemoveById(xs, id, k), id, k) == RemoveById(xs, id, k)
  {
    if xs != [] {
      RemoveIdempotent(xs[1..], id, k);
      if id(xs[0]) != k {
        assert ([xs[0]] + RemoveById(xs[1..], id, k))[1..] == RemoveById(xs[1..], id, k);
      }
    }
  }

  /** With unique ids, removing a present id drops exactly one element. */
  lemma {:induction false} RemoveUniqueDropsOne<T>(xs: seq<T>, id: T -> string, k: string)
    requires UniqueIds(xs, id) && k in Ids(xs, id)
    ensures |RemoveById(xs, id, k)| == |xs| - 1
  {
    if id(xs[0]) == k {
      assert k !in Ids(xs[1..], id) by {
        forall i | 0 <= i < |xs| - 1 ensures Ids(xs[1..], id)[i] != k {
          assert id(xs[i + 1]) != id(xs[0]);
        }
      }
      RemoveAbsentIsIdentity(xs[1..], id, k);
    } else {
      var p :| 0 <= p < |xs| && Ids(xs, id)[p] == k;
      assert Ids(xs[1..], id)[p - 1] == k;
      RemoveUniqueDropsOne(xs[1..], id, k);
    }
  }

  /** The three edits keep ids unique when the appended id is fresh. */
  lemma EditsKeepIdsUnique<T>(xs: seq<T>, id: T -> string, next: T, k: string, added: T)
    requires UniqueIds(xs, id)
    ensures UniqueIds(ReplaceById(xs, id, next), id)
    ensures UniqueIds(RemoveById(xs, id, k), id)
    ensures id(added) !in Ids(xs, id) ==> UniqueIds(xs + [added], id)
  {
    var r := ReplaceById(xs, id, next);
    forall i, j | 0 <= i < j < |r| ensures id(r[i]) != id(r[j]) {
      assert Ids(r, id)[i] == Ids(xs, id)[i] && Ids(r, id)[j] == Ids(xs, id)[j];
    }
    RemoveKeepsUnique(xs, id, k);
    if id(added) !in Ids(xs, id) {
      var s := xs + [added];
      forall i, j | 0 <= i < j < |s| ensures id(s[i]) != id(s[j]) {
        if j == |xs| { assert Ids(xs, id)[i] == id(s[i]); }
      }
    }
  }

  lemma {:induction false} RemoveKeepsUnique<T>(xs: seq<T>, id: T -> string, k: string)
    requires UniqueIds(xs, id)
    ensures UniqueIds(RemoveById(xs, id, k), id)
  {
    if xs != [] {
      RemoveKeepsUnique(xs[1..], id, k);
      var rest := RemoveById(xs[1..], id, k);
      if id(xs[0]) != k {
        var r := [xs[0]] + rest;
        forall j | 1 <= j < |r| ensures id(r[0]) != id(r[j]) {
          assert r[j] in rest;
          assert r[j] in xs[1..];
          var p :| 0 <= p < |xs| - 1 && xs[1..][p] == r[j];
          assert xs[p + 1] == r[j];
        }
      }
    }
  }
}
