/** Small value types and sequence helpers shared by every part of the model. */
module Common {

  datatype Option<T> = None | Some(value: T) {
    /** `value ?? default`, i.e. JavaScript's `x || default` for an object-valued x */
    function GetOr(default: T): T {
      if Some? then value else default
    }
  }

  datatype Result<T, E> = Success(value: T) | Failure(error: E)

  /** The outcome of one database query: what it returned, or the error it raised. */
  datatype Fetch<T> = Fetched(value: T) | FetchFailed

  /** JavaScript's `Array.prototype.filter`. */
  function Filter<T>(s: seq<T>, keep: T -> bool): (r: seq<T>)
    ensures |r| <= |s|
    ensures forall i :: 0 <= i < |r| ==> keep(r[i])
    ensures forall i :: 0 <= i < |r| ==> r[i] in s
    ensures forall i :: 0 <= i < |s| && keep(s[i]) ==> s[i] in r
  {
    if s == [] then [] else (if keep(s[0]) then [s[0]] else []) + Filter(s[1..], keep)
  }

  /** `idx` lists, in increasing order, the positions in `b` at which the elements of `a` sit. */
  ghost predicate Embedding<T>(a: seq<T>, b: seq<T>, idx: seq<int>) {
    && |idx| == |a|
    && (forall k :: 0 <= k < |idx| ==> 0 <= idx[k] < |b| && a[k] == b[idx[k]])
    && (forall k, l :: 0 <= k < l < |idx| ==> idx[k] < idx[l])
  }

  /** `a` is obtained from `b` by deleting elements, keeping the order of the rest. */
  ghost predicate IsSubsequence<T>(a: seq<T>, b: seq<T>) {
    exists idx :: Embedding(a, b, idx)
  }

  /** Every position of `idx`, moved one place to the right. */
  ghost function Shifted(idx: seq<int>): (r: seq<int>)
    ensures |r| == |idx| && forall k :: 0 <= k < |idx| ==> r[k] == idx[k] + 1
  {
    seq(|idx|, k requires 0 <= k < |idx| => idx[k] + 1)
  }

  /** The positions in `s` of the elements `Filter(s, keep)` keeps. */
  ghost function FilterPositions<T>(s: seq<T>, keep: T -> bool): seq<int> {
    if s == [] then []
    else if keep(s[0]) then [0] + Shifted(FilterPositions(s[1..], keep))
    else Shifted(FilterPositions(s[1..], keep))
  }

  lemma ShiftedEmbedding<T>(a: seq<T>, b: seq<T>, idx: seq<int>)
    requires b != [] && Embedding(a, b[1..], idx)
    ensures Embedding(a, b, Shifted(idx))
  {
    var sh := Shifted(idx);
    forall k | 0 <= k < |sh| ensures 0 <= sh[k] < |b| && a[k] == b[sh[k]] {
      assert b[1..][idx[k]] == b[idx[k] + 1];
    }
  }

  lemma ConsEmbedding<T>(a: seq<T>, b: seq<T>, idx: seq<int>)
    requires b != [] && Embedding(a, b, Shifted(idx)) && forall k :: 0 <= k < |idx| ==> 0 <= idx[k]
    ensures Embedding([b[0]] + a, b, [0] + Shifted(idx))
  {
    var sh := Shifted(idx);
    var all := [0] + sh;
    forall k, l | 0 <= k < l < |all| ensures all[k] < all[l] {
      assert all[l] == sh[l - 1];
      if k > 0 { assert all[k] == sh[k - 1]; }
    }
  }

  lemma {:induction false} FilterPositionsEmbed<T>(s: seq<T>, keep: T -> bool)
    ensures Embedding(Filter(s, keep), s, FilterPositions(s, keep))
  {
    if s != [] {
      FilterPositionsEmbed(s[1..], keep);
      var tail := FilterPositions(s[1..], keep);
      ShiftedEmbedding(Filter(s[1..], keep), s, tail);
      if keep(s[0]) {
        ConsEmbedding(Filter(s[1..], keep), s, tail);
      }
    }
  }

  lemma FilterIsSubsequence<T>(s: seq<T>, keep: T -> bool)
    ensures IsSubsequence(Filter(s, keep), s)
  {
    FilterPositionsEmbed(s, keep);
  }

  lemma {:induction false} FilterKeepsAll<T>(s: seq<T>, keep: T -> bool)
    requires forall i :: 0 <= i < |s| ==> keep(s[i])
    ensures Filter(s, keep) == s
  {
    if s != [] {
      FilterKeepsAll(s[1..], keep);
    }
  }

  /** An element of the input is kept exactly when it passes the predicate. */
  lemma FilterMembership<T>(s: seq<T>, keep: T -> bool)
    ensures forall i :: 0 <= i < |s| ==> (s[i] in Filter(s, keep) <==> keep(s[i]))
  {
    var r := Filter(s, keep);
    forall i | 0 <= i < |s| && s[i] in r ensures keep(s[i]) {
      var k :| 0 <= k < |r| && r[k] == s[i];
    }
  }

  /** Filtering a sequence with one more element at the end adds that element exactly when it is kept. */
  lemma {:induction false} FilterSnoc<T>(s: seq<T>, x: T, keep: T -> bool)
    ensures Filter(s + [x], keep) == Filter(s, keep) + (if keep(x) then [x] else [])
  {
    if s == [] {
      assert [x][1..] == [];
    } else {
      assert (s + [x])[1..] == s[1..] + [x];
      FilterSnoc(s[1..], x, keep);
    }
  }

  /** The same, for a non-empty sequence split before its last element. */
  lemma {:induction false} FilterLast<T>(s: seq<T>, keep: T -> bool)
    requires s != []
    ensures Filter(s, keep) == Filter(s[..|s| - 1], keep) + (if keep(s[|s| - 1]) then [s[|s| - 1]] else [])
  {
    assert s[..|s| - 1] + [s[|s| - 1]] == s;
    FilterSnoc(s[..|s| - 1], s[|s| - 1], keep);
  }

  /** Each value occurs in the result as often as in the input when it is kept, and not at all otherwise. */
  lemma {:induction false} FilterCount<T>(s: seq<T>, keep: T -> bool)
    ensures forall x :: multiset(Filter(s, keep))[x] == if keep(x) then multiset(s)[x] else 0
  {
    if s != [] {
      FilterCount(s[1..], keep);
      assert s == [s[0]] + s[1..];
      assert multiset(s) == multiset{s[0]} + multiset(s[1..]);
      var head := if keep(s[0]) then [s[0]] else [];
      assert Filter(s, keep) == head + Filter(s[1..], keep);
      assert multiset(Filter(s, keep)) == multiset(head) + multiset(Filter(s[1..], keep));
    }
  }

  /** Filters by predicates that agree on every element give the same result. */
  lemma {:induction false} FilterCongruent<T>(s: seq<T>, f: T -> bool, g: T -> bool)
    requires forall i :: 0 <= i < |s| ==> f(s[i]) == g(s[i])
    ensures Filter(s, f) == Filter(s, g)
  {
    if s != [] {
      FilterCongruent(s[1..], f, g);
    }
  }

  /** Filtering by a predicate and by its negation splits the sequence in two. */
  lemma {:induction false} FilterPartition<T>(s: seq<T>, keep: T -> bool, drop: T -> bool)
    requires forall i :: 0 <= i < |s| ==> drop(s[i]) == !keep(s[i])
    ensures |Filter(s, keep)| + |Filter(s, drop)| == |s|
  {
    if s != [] {
      FilterPartition(s[1..], keep, drop);
    }
  }

  /** JavaScript's `Math.round`: the nearest integer, halves rounded up. */
  function MathRound(x: real): (r: int)
    ensures x - 0.5 < r as real <= x + 0.5
  {
    (x + 0.5).Floor
  }

  /** `parseFloat(x.toFixed(k))` on exact reals: the nearest integer, halves rounded away from zero. */
  function RoundHalfAway(x: real): (r: int)
    ensures x - 0.5 <= r as real <= x + 0.5
    ensures (x >= 0.0) == (r >= 0) || r == 0
    ensures x >= 0.0 ==> x - 0.5 < r as real
    ensures x < 0.0 ==> r as real < x + 0.5
  {
    if x >= 0.0 then (x + 0.5).Floor else -((-x + 0.5).Floor)
  }

  function Min(a: real, b: real): real { if a <= b then a else b }
  function Max(a: real, b: real): real { if a >= b then a else b }
}
