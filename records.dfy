/** Shapes shared by the store, the route handlers and the client component:
    the documents of the `posts` and `likes` collections, the answer of the
    like endpoint, and the optional/failing values the handlers work with. */
module Records {

  datatype Option<T> = None | Some(value: T)

  datatype Result<T, E> = Ok(value: T) | Err(error: E)

  /** Document identifiers (ObjectIds) are opaque; naturals stand in for them. */
  type PostId = nat
  type LikeId = nat

  /** Clock values, in milliseconds. */
  type Time = int

  /** A document of the `posts` collection. */
  datatype Post = Post(
    id: PostId,
    title: string,
    content: string,
    userId: string,
    username: string,
    createdAt: Time,
    updatedAt: Time)

  /** A document of the `likes` collection: one user's like of one post. */
  datatype Like = Like(id: LikeId, postId: PostId, userId: string, createdAt: Time)

  /** The JSON answer of the like endpoint, as the client reads it. */
  datatype LikeResponse = LikeResponse(likeCount: int, message: string, isLiked: bool)

  /** JavaScript truthiness of an optional string field: it is present and not
      empty. Mongoose's `required` check on a String path is the same test. */
  predicate Truthy(v: Option<string>)
  {
    v.Some? && v.value != ""
  }
}

/** Sequence helpers shared by the store and the query pipeline. */
module Seqs {
  import opened Records

  /** The elements of `s` that satisfy `keep`, in their original order. */
  function Filter<T(!new)>(s: seq<T>, keep: T -> bool): (r: seq<T>)
    ensures |r| <= |s|
    ensures forall x :: x in r <==> x in s && keep(x)
  {
    if s == [] then [] else (if keep(s[0]) then [s[0]] else []) + Filter(s[1..], keep)
  }

  /** The index of the first element of `s` that satisfies `found`, if any. */
  function FindIndex<T(!new)>(s: seq<T>, found: T -> bool): (r: Option<nat>)
    ensures r.Some? ==> r.value < |s| && found(s[r.value])
    ensures r.None? ==> forall x :: x in s ==> !found(x)
  {
    if s == [] then None
    else if found(s[0]) then Some(0)
    else match FindIndex(s[1..], found)
      case None => None
      case Some(i) => Some(i + 1)
  }

  /** No two elements of `s` share a key. */
  ghost predicate DistinctBy<T(!new), K>(s: seq<T>, key: T -> K)
  {
    forall i, j :: 0 <= i < j < |s| ==> key(s[i]) != key(s[j])
  }

  lemma FirstTwo<T>(s: seq<T>)
    requires |s| >= 2
    ensures s[0] in s && s[1] in s
  {
  }

  lemma DistinctByTail<T(!new), K>(s: seq<T>, key: T -> K)
    requires s != [] && DistinctBy(s, key)
    ensures DistinctBy(s[1..], key)
    ensures forall x :: x in s[1..] ==> key(x) != key(s[0])
  {
    forall j | 0 <= j < |s[1..]| ensures key(s[1..][j]) != key(s[0]) {
      assert s[1..][j] == s[j + 1];
    }
  }

  lemma {:induction false} FilterKeepsDistinct<T(!new), K>(s: seq<T>, keep: T -> bool, key: T -> K)
    requires DistinctBy(s, key)
    ensures DistinctBy(Filter(s, keep), key)
  {
    if s != [] {
      DistinctByTail(s, key);
      FilterKeepsDistinct(s[1..], keep, key);
      var rest := Filter(s[1..], keep);
      if keep(s[0]) {
        var r := [s[0]] + rest;
        forall i, j | 0 <= i < j < |r| ensures key(r[i]) != key(r[j]) {
          assert r[j] == rest[j - 1];
          if i > 0 {
            assert r[i] == rest[i - 1];
          } else {
            assert rest[j - 1] in rest;
          }
        }
      }
    }
  }

  /** Nothing survives a filter that rejects every element. */
  lemma {:induction false} FilterNone<T(!new)>(s: seq<T>, keep: T -> bool)
    requires forall x :: x in s ==> !keep(x)
    ensures Filter(s, keep) == []
  {
    if s != [] {
      assert s[0] in s;
      FilterNone(s[1..], keep);
    }
  }

  lemma {:induction false} FilterCount<T(!new)>(s: seq<T>, keep: T -> bool, x: T)
    ensures multiset(Filter(s, keep))[x] == if keep(x) then multiset(s)[x] else 0
  {
    if s != [] {
      FilterCount(s[1..], keep, x);
      assert s == [s[0]] + s[1..];
    }
  }

  lemma {:induction false} FilterAppend<T(!new)>(s: seq<T>, t: seq<T>, keep: T -> bool)
    ensures Filter(s + t, keep) == Filter(s, keep) + Filter(t, keep)
  {
    if s == [] {
      assert s + t == t;
    } else {
      var head := if keep(s[0]) then [s[0]] else [];
      FilterAppend(s[1..], t, keep);
      assert (s + t)[0] == s[0];
      assert (s + t)[1..] == s[1..] + t;
      assert Filter(s + t, keep) == head + Filter(s[1..] + t, keep);
      assert Filter(s, keep) == head + Filter(s[1..], keep);
      assert head + (Filter(s[1..], keep) + Filter(t, keep))
          == (head + Filter(s[1..], keep)) + Filter(t, keep);
    }
  }

  /** A sequence whose keys are distinct holds each element once, so it has as
      many elements as the set of its elements. */
  lemma {:induction false} DistinctCardinality<T(!new), K>(s: seq<T>, key: T -> K)
    requires DistinctBy(s, key)
    ensures |set x | x in s| == |s|
  {
    if s != [] {
      DistinctByTail(s, key);
      DistinctCardinality(s[1..], key);
      assert (set x | x in s) == {s[0]} + (set x | x in s[1..]);
      assert s[0] !in s[1..];
    }
  }

  /** Under distinct keys every element occurs at most once. */
  lemma {:induction false} DistinctOccursOnce<T(!new), K>(s: seq<T>, key: T -> K, x: T)
    requires DistinctBy(s, key)
    ensures multiset(s)[x] <= 1
  {
    if s != [] {
      DistinctByTail(s, key);
      DistinctOccursOnce(s[1..], key, x);
      assert s == [s[0]] + s[1..];
      if x == s[0] {
        assert x !in s[1..];
      }
    }
  }

  /** An element found at two positions occurs at least twice. */
  lemma TwoPositions<T>(s: seq<T>, i: nat, j: nat)
    requires i < j < |s| && s[i] == s[j]
    ensures multiset(s)[s[i]] >= 2
  {
    assert s == s[..j] + s[j..];
    assert s[..j][i] == s[i];
    assert s[j..][0] == s[i];
    assert s[i] in multiset(s[..j]) && s[i] in multiset(s[j..]);
  }

  /** A reordering of a sequence with distinct keys has distinct keys. */
  lemma PermutationKeepsDistinct<T(!new), K>(a: seq<T>, b: seq<T>, key: T -> K)
    requires multiset(a) == multiset(b)
    requires DistinctBy(b, key)
    ensures DistinctBy(a, key)
  {
    forall i, j | 0 <= i < j < |a| ensures key(a[i]) != key(a[j]) {
      if a[i] == a[j] {
        TwoPositions(a, i, j);
        DistinctOccursOnce(b, key, a[i]);
      } else {
        assert a[i] in multiset(b) && a[j] in multiset(b);
        var k :| 0 <= k < |b| && b[k] == a[i];
        var l :| 0 <= l < |b| && b[l] == a[j];
        assert k != l;
      }
    }
  }
}
