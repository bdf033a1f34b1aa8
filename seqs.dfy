/** The array operations the application is written with, on sequences:
    `filter`, `map`, `find` and `filter(...).length`. */
module Seqs {

  import opened Types

  /** `a` is `b` with some elements left out, the rest in their order. */
  predicate Subseq<T(==)>(a: seq<T>, b: seq<T>)
    decreases |b|
  {
    if a == [] then true
    else if b == [] then false
    else if a[0] == b[0] then Subseq(a[1..], b[1..])
    else Subseq(a, b[1..])
  }

  lemma {:induction false} SubseqDropHead<T>(a: seq<T>, b: seq<T>)
    requires a != [] && Subseq(a, b)
    ensures Subseq(a[1..], b)
    decreases |b|
  {
    if a[0] != b[0] {
      SubseqDropHead(a, b[1..]);
      SubseqSkip(a[1..], b);
    } else {
      SubseqSkip(a[1..], b);
    }
  }

  lemma {:induction false} SubseqSkip<T>(a: seq<T>, b: seq<T>)
    requires b != [] && Subseq(a, b[1..])
    ensures Subseq(a, b)
    decreases |b|, 1
  {
    if a != [] && a[0] == b[0] {
      SubseqDropHead(a, b[1..]);
    }
  }

  /** The positions of `s` holding an element that passes `p`. */
  function Positions<T>(s: seq<T>, p: T -> bool): set<int> {
    set i | 0 <= i < |s| && p(s[i])
  }

  lemma PositionsSnoc<T>(s: seq<T>, x: T, p: T -> bool)
    ensures Positions(s + [x], p) == Positions(s, p) + (if p(x) then {|s|} else {})
    ensures |s| !in Positions(s, p)
  {
    var t := s + [x];
    forall i | 0 <= i < |s|
      ensures (i in Positions(t, p)) == (i in Positions(s, p))
    {
      assert t[i] == s[i];
    }
  }

  /** Counting the positions from the front: the first one, then the rest. */
  lemma {:induction false} PositionsCons<T>(s: seq<T>, p: T -> bool)
    requires s != []
    ensures |Positions(s, p)| == (if p(s[0]) then 1 else 0) + |Positions(s[1..], p)|
    decreases |s|
  {
    var n := |s| - 1;
    var front, x := s[..n], s[n];
    assert s == front + [x];
    PositionsSnoc(front, x, p);
    if n == 0 {
      assert Positions(front, p) == {} && Positions(s[1..], p) == {};
    } else {
      PositionsCons(front, p);
      assert s[1..] == front[1..] + [x];
      PositionsSnoc(front[1..], x, p);
    }
  }

  /** `s.filter(p)`. */
  function Filter<T(==,!new)>(s: seq<T>, p: T -> bool): (r: seq<T>)
    ensures |r| <= |s|
    ensures forall i :: 0 <= i < |r| ==> p(r[i])
    ensures forall x :: x in r <==> x in s && p(x)
    ensures |r| == |Positions(s, p)|
    ensures Subseq(r, s)
    decreases |s|
  {
    if s == [] then []
    else
      var rest := Filter(s[1..], p);
      assert forall x :: x in s <==> x == s[0] || x in s[1..];
      PositionsCons(s, p);
      if p(s[0]) then
        assert ([s[0]] + rest)[1..] == rest;
        [s[0]] + rest
      else
        SubseqSkip(rest, s);
        rest
  }

  lemma {:induction false} FilterKeepsAll<T(!new)>(s: seq<T>, p: T -> bool)
    requires forall i :: 0 <= i < |s| ==> p(s[i])
    ensures Filter(s, p) == s
    decreases |s|
  {
    if s != [] {
      FilterKeepsAll(s[1..], p);
      assert [s[0]] + s[1..] == s;
    }
  }

  lemma {:induction false} FilterIdempotent<T(!new)>(s: seq<T>, p: T -> bool)
    ensures Filter(Filter(s, p), p) == Filter(s, p)
  {
    FilterKeepsAll(Filter(s, p), p);
  }

  lemma {:induction false} FilterAppend<T(!new)>(s: seq<T>, t: seq<T>, p: T -> bool)
    ensures Filter(s + t, p) == Filter(s, p) + Filter(t, p)
    decreases |s|
  {
    if s == [] {
      assert s + t == t;
    } else {
      assert (s + t)[0] == s[0] && (s + t)[1..] == s[1..] + t;
      FilterAppend(s[1..], t, p);
    }
  }

  /** A filter comes out empty exactly when no element passes. */
  lemma FilterEmpty<T(!new)>(s: seq<T>, p: T -> bool)
    ensures |Filter(s, p)| == 0 <==> forall i :: 0 <= i < |s| ==> !p(s[i])
  {
    if |Filter(s, p)| == 0 {
      forall i | 0 <= i < |s| ensures !p(s[i]) {
        assert s[i] in s;
      }
    }
  }

  /** Elements of `s` satisfying one of three exclusive tests add up to
      `|s|` when every element satisfies one of them. */
  lemma {:induction false} FilterCountsPartition<T(!new)>(s: seq<T>, p: T -> bool, q: T -> bool, r: T -> bool)
    requires forall i :: 0 <= i < |s| ==> (p(s[i]) || q(s[i]) || r(s[i]))
    requires forall i :: 0 <= i < |s| ==> !(p(s[i]) && q(s[i])) && !(p(s[i]) && r(s[i])) && !(q(s[i]) && r(s[i]))
    ensures |Filter(s, p)| + |Filter(s, q)| + |Filter(s, r)| == |s|
    decreases |s|
  {
    if s != [] {
      FilterCountsPartition(s[1..], p, q, r);
    }
  }

  /** Three exclusive tests count at most `|s|` elements together. */
  lemma {:induction false} FilterCountsAtMost<T(!new)>(s: seq<T>, p: T -> bool, q: T -> bool, r: T -> bool)
    requires forall i :: 0 <= i < |s| ==> !(p(s[i]) && q(s[i])) && !(p(s[i]) && r(s[i])) && !(q(s[i]) && r(s[i]))
    ensures |Filter(s, p)| + |Filter(s, q)| + |Filter(s, r)| <= |s|
    decreases |s|
  {
    if s != [] {
      FilterCountsAtMost(s[1..], p, q, r);
    }
  }

  /** `s.some(p)`. */
  predicate Any<T>(s: seq<T>, p: T -> bool)
    ensures Any(s, p) <==> exists i :: 0 <= i < |s| && p(s[i])
    decreases |s|
  {
    if s == [] then false
    else
      assert forall i :: 1 <= i < |s| ==> s[i] == s[1..][i - 1];
      p(s[0]) || Any(s[1..], p)
  }

  /** `s.every(p)`. */
  predicate All<T>(s: seq<T>, p: T -> bool)
    ensures All(s, p) <==> forall i :: 0 <= i < |s| ==> p(s[i])
    decreases |s|
  {
    if s == [] then true
    else
      assert forall i :: 1 <= i < |s| ==> s[i] == s[1..][i - 1];
      p(s[0]) && All(s[1..], p)
  }

  /** `s.map(f)`. */
  function Map<T, U>(s: seq<T>, f: T -> U): (r: seq<U>)
    ensures |r| == |s|
    ensures forall i :: 0 <= i < |s| ==> r[i] == f(s[i])
    decreases |s|
  {
    if s == [] then [] else [f(s[0])] + Map(s[1..], f)
  }

  /** Mapping both sides keeps a subsequence a subsequence. */
  lemma {:induction false} MapSubseq<T, U>(a: seq<T>, b: seq<T>, f: T -> U)
    requires Subseq(a, b)
    ensures Subseq(Map(a, f), Map(b, f))
    decreases |b|
  {
    if a != [] {
      var ma, mb := Map(a, f), Map(b, f);
      assert ma[1..] == Map(a[1..], f) && mb[1..] == Map(b[1..], f);
      if a[0] == b[0] {
        MapSubseq(a[1..], b[1..], f);
      } else {
        MapSubseq(a, b[1..], f);
        if ma[0] == mb[0] {
          SubseqDropHead(ma, mb[1..]);
        }
      }
    }
  }

  /** Mapping distributes over concatenation. */
  lemma {:induction false} MapAppend<T, U>(s: seq<T>, t: seq<T>, f: T -> U)
    ensures Map(s + t, f) == Map(s, f) + Map(t, f)
  {
  }

  /** Filtering the images of `s` under `f` and mapping the survivors back
      by a left inverse `g` of `f` is filtering `s` by the composed test. */
  lemma {:induction false} FilterThroughMap<T(!new), U(!new)>(s: seq<T>, f: T -> U, g: U -> T, p: U -> bool, q: T -> bool)
    requires forall x :: g(f(x)) == x
    requires forall x :: q(x) == p(f(x))
    ensures Map(Filter(Map(s, f), p), g) == Filter(s, q)
    decreases |s|
  {
    if s != [] {
      var m := Map(s, f);
      assert m[1..] == Map(s[1..], f);
      FilterThroughMap(s[1..], f, g, p, q);
      var rest := Filter(m[1..], p);
      if p(m[0]) {
        assert ([m[0]] + rest)[1..] == rest;
      }
    }
  }

  /** `s.find(p)`: the first element satisfying `p`, if any. */
  function Find<T>(s: seq<T>, p: T -> bool): (r: Option<T>)
    ensures r.None? <==> forall i :: 0 <= i < |s| ==> !p(s[i])
    ensures r.Some? ==> exists i :: 0 <= i < |s| && s[i] == r.value && p(s[i]) &&
                                  forall j :: 0 <= j < i ==> !p(s[j])
    decreases |s|
  {
    if s == [] then None
    else if p(s[0]) then Some(s[0])
    else
      var r := Find(s[1..], p);
      assert r.Some? ==> exists i :: 1 <= i < |s| && s[i] == r.value && p(s[i]) &&
                                     forall j :: 0 <= j < i ==> !p(s[j]) by {
        if r.Some? {
          var i :| 0 <= i < |s| - 1 && s[1..][i] == r.value && p(s[1..][i]) &&
                   forall j :: 0 <= j < i ==> !p(s[1..][j]);
          assert forall j :: 1 <= j < i + 1 ==> !p(s[j]) by {
            forall j | 1 <= j < i + 1 ensures !p(s[j]) { assert s[j] == s[1..][j - 1]; }
          }
        }
      }
      r
  }

  /** The last element satisfying `p`, if any: what a `Map` built from
      `s` keeps for a key, later entries overwriting earlier ones. */
  function FindLast<T>(s: seq<T>, p: T -> bool): (r: Option<T>)
    ensures r.None? <==> forall i :: 0 <= i < |s| ==> !p(s[i])
    ensures r.Some? ==> exists i :: 0 <= i < |s| && s[i] == r.value && p(s[i]) &&
                                  forall j :: i < j < |s| ==> !p(s[j])
    decreases |s|
  {
    if s == [] then None
    else if p(s[|s| - 1]) then Some(s[|s| - 1])
    else
      var front := s[..|s| - 1];
      var r := FindLast(front, p);
      assert r.None? ==> forall i :: 0 <= i < |s| ==> !p(s[i]) by {
        if r.None? {
          forall i | 0 <= i < |s| ensures !p(s[i]) {
            if i < |front| { assert s[i] == front[i]; }
          }
        }
      }
      assert r.Some? ==> exists i :: 0 <= i < |s| && s[i] == r.value && p(s[i]) &&
                                     forall j :: i < j < |s| ==> !p(s[j]) by {
        if r.Some? {
          var i :| 0 <= i < |front| && front[i] == r.value && p(front[i]) &&
                   forall j :: i < j < |front| ==> !p(front[j]);
          assert s[i] == front[i];
          forall j | i < j < |s| ensures !p(s[j]) {
            if j < |front| { assert s[j] == front[j]; }
          }
        }
      }
      r
  }

  lemma FindLastAppend<T>(s: seq<T>, x: T, p: T -> bool)
    ensures FindLast(s + [x], p) == if p(x) then Some(x) else FindLast(s, p)
  {
    assert (s + [x])[..|s|] == s;
  }

  /** Looking for the last match among the elements a filter keeps is
      looking for the last element passing both tests. */
  lemma {:induction false} FindLastFilter<T(!new)>(s: seq<T>, p: T -> bool, q: T -> bool, pq: T -> bool)
    requires forall x :: pq(x) == (p(x) && q(x))
    ensures FindLast(Filter(s, p), q) == FindLast(s, pq)
    decreases |s|
  {
    if s != [] {
      var n := |s| - 1;
      var front, x := s[..n], s[n];
      assert s == front + [x];
      FilterAppend(front, [x], p);
      FindLastFilter(front, p, q, pq);
      FindLastAppend(front, x, pq);
      assert [x][1..] == [];
      if p(x) {
        assert Filter([x], p) == [x];
        FindLastAppend(Filter(front, p), x, q);
      } else {
        assert Filter([x], p) == [];
        assert Filter(front, p) + [] == Filter(front, p);
      }
    }
  }

  /** Appending cannot change a find that already succeeds, and a find
      that fails on the prefix finds the appended element if it fits. */
  lemma {:induction false} FindAppend<T>(s: seq<T>, x: T, p: T -> bool)
    ensures Find(s + [x], p) == if Find(s, p).Some? then Find(s, p)
                                else if p(x) then Some(x) else None
    decreases |s|
  {
    if s == [] {
      assert s + [x] == [x];
    } else {
      assert (s + [x])[0] == s[0] && (s + [x])[1..] == s[1..] + [x];
      FindAppend(s[1..], x, p);
    }
  }
}
