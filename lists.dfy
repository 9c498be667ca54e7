/** Sequence operations the dashboard uses on its order list: `filter` and
    `map` of JavaScript arrays, with the facts about them that the order
    operations rely on. */
module Lists {

  /** The elements of `s` that satisfy `p`, in the order they appear in `s`. */
  function Filter<T(==, !new)>(s: seq<T>, p: T -> bool): (r: seq<T>)
    ensures |r| <= |s|
  {
    if s == [] then []
    else
      var init, last := s[..|s| - 1], s[|s| - 1];
      Filter(init, p) + (if p(last) then [last] else [])
  }

  /** `Filter` keeps an element exactly when it is in the input and satisfies `p`. */
  lemma {:induction false} FilterMembers<T(!new)>(s: seq<T>, p: T -> bool)
    ensures forall x :: x in Filter(s, p) <==> x in s && p(x)
  {
    if s != [] {
      var init, last := s[..|s| - 1], s[|s| - 1];
      FilterMembers(init, p);
      assert s == init + [last];
    }
  }

  /** `f` applied to every element of `s`, positions kept. */
  function Map<T, U>(s: seq<T>, f: T -> U): (r: seq<U>)
  {
    seq(|s|, i requires 0 <= i < |s| => f(s[i]))
  }

  ghost predicate Increasing(idx: seq<int>)
  {
    forall k, l :: 0 <= k < l < |idx| ==> idx[k] < idx[l]
  }

  /** `r` is the subsequence of `s` taken at the ascending positions `idx`. */
  ghost predicate PicksAt<T>(r: seq<T>, s: seq<T>, idx: seq<int>)
  {
    && |idx| == |r|
    && Increasing(idx)
    && forall k :: 0 <= k < |idx| ==> 0 <= idx[k] < |s| && r[k] == s[idx[k]]
  }

  /** `r` consists of exactly the elements of `s` that satisfy `p`, each one
      kept in its original relative order. */
  ghost predicate SelectsExactly<T>(r: seq<T>, s: seq<T>, p: T -> bool)
  {
    exists idx :: PicksAt(r, s, idx) && forall i :: 0 <= i < |s| ==> (p(s[i]) <==> i in idx)
  }

  /** The positions of `s` whose element satisfies `p`, ascending. */
  ghost function Positions<T>(s: seq<T>, p: T -> bool): (idx: seq<int>)
    ensures Increasing(idx)
    ensures forall k :: 0 <= k < |idx| ==> 0 <= idx[k] < |s|
    ensures forall i :: 0 <= i < |s| ==> (p(s[i]) <==> i in idx)
  {
    if s == [] then []
    else Positions(s[..|s| - 1], p) + (if p(s[|s| - 1]) then [|s| - 1] else [])
  }

  lemma {:induction false} FilterAtPositions<T(!new)>(s: seq<T>, p: T -> bool)
    ensures PicksAt(Filter(s, p), s, Positions(s, p))
  {
    if s != [] {
      var init := s[..|s| - 1];
      FilterAtPositions(init, p);
      var r, idx := Filter(init, p), Positions(init, p);
      forall k | 0 <= k < |idx|
        ensures idx[k] < |s| && r[k] == s[idx[k]]
      {
        assert init[idx[k]] == s[idx[k]];
      }
    }
  }

  /** `Filter` keeps exactly the satisfying elements, in order. */
  lemma FilterSelectsExactly<T(!new)>(s: seq<T>, p: T -> bool)
    ensures SelectsExactly(Filter(s, p), s, p)
  {
    FilterAtPositions(s, p);
  }

  /** Filtering by a predicate that every element satisfies changes nothing. */
  lemma {:induction false} FilterKeepsAll<T(!new)>(s: seq<T>, p: T -> bool)
    requires forall i :: 0 <= i < |s| ==> p(s[i])
    ensures Filter(s, p) == s
  {
    if s != [] {
      var init, last := s[..|s| - 1], s[|s| - 1];
      forall i | 0 <= i < |init| ensures p(init[i]) {
        assert init[i] == s[i];
      }
      FilterKeepsAll(init, p);
      assert p(last);
      assert Filter(s, p) == init + [last];
      assert s == init + [last];
    }
  }

  /** Filtering by `p` and by its negation splits `s`. */
  lemma {:induction false} FilterComplementLength<T(!new)>(s: seq<T>, p: T -> bool, q: T -> bool)
    requires forall x :: q(x) == !p(x)
    ensures |Filter(s, p)| + |Filter(s, q)| == |s|
  {
    if s != [] {
      FilterComplementLength(s[..|s| - 1], p, q);
    }
  }

  lemma MapConcat<T, U>(a: seq<T>, b: seq<T>, f: T -> U)
    ensures Map(a + b, f) == Map(a, f) + Map(b, f)
  {
  }

  /** A map that does not change what `p` says of an element commutes with
      filtering by `p`. */
  lemma {:induction false} FilterMapCommute<T(!new)>(s: seq<T>, f: T -> T, p: T -> bool)
    requires forall x :: p(f(x)) == p(x)
    ensures Filter(Map(s, f), p) == Map(Filter(s, p), f)
  {
    if s != [] {
      var init, last := s[..|s| - 1], s[|s| - 1];
      FilterMapCommute(init, f, p);
      assert Map(s, f)[..|s| - 1] == Map(init, f);
      MapConcat(Filter(init, p), if p(last) then [last] else [], f);
    }
  }
}
