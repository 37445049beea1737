/** List effects shared by the library page and the review moderation page. */
module Lists {

  /** `xs.filter(x => key(x) !== k)`: drop every element whose key is `k`. */
  function RemoveKey<T(==,!new)>(xs: seq<T>, key: T -> string, k: string): (r: seq<T>)
    ensures |r| <= |xs|
    ensures forall x :: x in r <==> x in xs && key(x) != k
  {
    if xs == [] then []
    else (if key(xs[0]) == k then [] else [xs[0]]) + RemoveKey(xs[1..], key, k)
  }

  /** Filtering works element by element: it keeps the relative order. */
  lemma {:induction false} RemoveKeyAppend<T(!new)>(a: seq<T>, b: seq<T>, key: T -> string, k: string)
    ensures RemoveKey(a + b, key, k) == RemoveKey(a, key, k) + RemoveKey(b, key, k)
    decreases |a|
  {
    if a != [] {
      assert (a + b)[0] == a[0];
      assert (a + b)[1..] == a[1..] + b;
      RemoveKeyAppend(a[1..], b, key, k);
    } else {
      assert a + b == b;
    }
  }

  /** With no element carrying the key, nothing is removed. */
  lemma {:induction false} RemoveKeyAbsent<T(!new)>(xs: seq<T>, key: T -> string, k: string)
    requires forall i :: 0 <= i < |xs| ==> key(xs[i]) != k
    ensures RemoveKey(xs, key, k) == xs
    decreases |xs|
  {
    if xs != [] {
      RemoveKeyAbsent(xs[1..], key, k);
      assert xs == [xs[0]] + xs[1..];
    }
  }

  /** When exactly the element at `i` carries the key, the result is the list
      with that one element cut out. */
  lemma RemoveUniqueKey<T(!new)>(xs: seq<T>, key: T -> string, k: string, i: nat)
    requires i < |xs| && key(xs[i]) == k
    requires forall j :: 0 <= j < |xs| && j != i ==> key(xs[j]) != k
    ensures RemoveKey(xs, key, k) == xs[..i] + xs[i + 1..]
  {
    var pre, post := xs[..i], xs[i + 1..];
    var single := [xs[i]];
    assert xs == pre + (single + post);
    assert forall j :: 0 <= j < |pre| ==> key(pre[j]) != k by {
      forall j | 0 <= j < |pre| ensures key(pre[j]) != k {
        assert pre[j] == xs[j];
      }
    }
    assert forall j :: 0 <= j < |post| ==> key(post[j]) != k by {
      forall j | 0 <= j < |post| ensures key(post[j]) != k {
        assert post[j] == xs[i + 1 + j];
      }
    }
    RemoveKeyAbsent(pre, key, k);
    RemoveKeyAbsent(post, key, k);
    assert single[1..] == [];
    assert RemoveKey(single, key, k) == [];
    RemoveKeyAppend(single, post, key, k);
    assert RemoveKey(single + post, key, k) == post;
    RemoveKeyAppend(pre, single + post, key, k);
    assert RemoveKey(xs, key, k) == pre + post;
  }

  /** No two elements share a key, as rows keyed by a primary key. */
  predicate UniqueKeys<T>(xs: seq<T>, key: T -> string) {
    forall i, j :: 0 <= i < j < |xs| ==> key(xs[i]) != key(xs[j])
  }

  /** Filtering keeps a sublist, so keys stay unique. */
  lemma {:induction false} RemoveKeyKeepsUnique<T(!new)>(xs: seq<T>, key: T -> string, k: string)
    requires UniqueKeys(xs, key)
    ensures UniqueKeys(RemoveKey(xs, key, k), key)
    decreases |xs|
  {
    if xs != [] {
      var tail := xs[1..];
      assert UniqueKeys(tail, key) by {
        forall i, j | 0 <= i < j < |tail| ensures key(tail[i]) != key(tail[j]) {
          assert tail[i] == xs[i + 1] && tail[j] == xs[j + 1];
        }
      }
      RemoveKeyKeepsUnique(tail, key, k);
      var rest := RemoveKey(tail, key, k);
      var head := if key(xs[0]) == k then [] else [xs[0]];
      assert forall y :: y in rest ==> key(y) != key(xs[0]) by {
        forall y | y in rest ensures key(y) != key(xs[0]) {
          assert y in tail;
          var j :| 0 <= j < |tail| && tail[j] == y;
          assert xs[j + 1] == y;
        }
      }
      var r := head + rest;
      forall i, j | 0 <= i < j < |r| ensures key(r[i]) != key(r[j]) {
        if i < |head| {
          assert r[i] == xs[0] && r[j] == rest[j - |head|];
        } else {
          assert r[i] == rest[i - |head|] && r[j] == rest[j - |head|];
        }
      }
    }
  }

  /** Unique keys give the premise of `RemoveUniqueKey` at every index. */
  lemma UniqueKeyAt<T>(xs: seq<T>, key: T -> string, i: nat)
    requires UniqueKeys(xs, key) && i < |xs|
    ensures forall j :: 0 <= j < |xs| && j != i ==> key(xs[j]) != key(xs[i])
  {
    forall j | 0 <= j < |xs| && j != i ensures key(xs[j]) != key(xs[i]) {
      if j < i { assert key(xs[j]) != key(xs[i]); } else { assert key(xs[i]) != key(xs[j]); }
    }
  }
}
