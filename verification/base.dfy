/** Small value types and sequence combinators shared by the rest of the model:
    the optional value, JavaScript's `Array.prototype.filter` and the index
    form of `Array.prototype.find`. */
module Base {

  datatype Option<+T> = None | Some(value: T)

  /** `s.filter(p)`: keeps, in order, exactly the elements that satisfy `p`.
      Written by peeling the last element, which yields the same sequence as
      the left-to-right scan of the JavaScript method. */
  function Keep<T>(s: seq<T>, p: T -> bool): (r: seq<T>)
    ensures |r| <= |s|
    ensures forall i :: 0 <= i < |r| ==> p(r[i])
    ensures multiset(r) <= multiset(s)
    decreases |s|
  {
    if |s| == 0 then []
    else
      var init := Keep(s[..|s| - 1], p);
      assert s == s[..|s| - 1] + [s[|s| - 1]];
      if p(s[|s| - 1]) then init + [s[|s| - 1]] else init
  }

  /** The indices in `idx` are strictly increasing. */
  ghost predicate Increasing(idx: seq<int>)
  {
    forall i, j :: 0 <= i < j < |idx| ==> idx[i] < idx[j]
  }

  /** `r` is the subsequence of `s` taken at positions `idx`, and those are
      exactly the positions of `s` whose element satisfies `p`. */
  ghost predicate SelectedAt<T>(r: seq<T>, s: seq<T>, p: T -> bool, idx: seq<int>)
  {
    && |idx| == |r|
    && Increasing(idx)
    && (forall k :: 0 <= k < |idx| ==> 0 <= idx[k] < |s| && r[k] == s[idx[k]])
    && (forall j :: 0 <= j < |s| ==> (p(s[j]) <==> j in idx))
  }

  /** One step of `KeepSelectsPositions`: a selection from all but the last
      element extends to a selection from the whole sequence. */
  lemma SnocSelected<T>(s: seq<T>, p: T -> bool, prev: seq<int>) returns (idx: seq<int>)
    requires |s| > 0
    requires SelectedAt(Keep(s[..|s| - 1], p), s[..|s| - 1], p, prev)
    ensures SelectedAt(Keep(s, p), s, p, idx)
  {
    var n := |s| - 1;
    var init := s[..n];
    var before := Keep(init, p);
    var r := Keep(s, p);
    idx := if p(s[n]) then prev + [n] else prev;
    assert r == if p(s[n]) then before + [s[n]] else before;
    forall k | 0 <= k < |idx|
      ensures 0 <= idx[k] < |s| && r[k] == s[idx[k]]
    {
      if k < |prev| {
        assert idx[k] == prev[k] && r[k] == before[k] && s[prev[k]] == init[prev[k]];
      }
    }
    forall i, j | 0 <= i < j < |idx|
      ensures idx[i] < idx[j]
    {
      if j < |prev| {
        assert idx[i] == prev[i] && idx[j] == prev[j];
      } else {
        assert idx[i] == prev[i];
      }
    }
    assert forall k :: 0 <= k < |prev| ==> prev[k] < n;
    assert forall j :: 0 <= j < n ==> (p(s[j]) <==> j in prev) by {
      forall j | 0 <= j < n
        ensures p(s[j]) <==> j in prev
      {
        assert s[j] == init[j];
      }
    }
    SnocPositions(s, p, prev, idx);
  }

  lemma SnocPositions<T>(s: seq<T>, p: T -> bool, prev: seq<int>, idx: seq<int>)
    requires |s| > 0
    requires forall k :: 0 <= k < |prev| ==> prev[k] < |s| - 1
    requires forall j :: 0 <= j < |s| - 1 ==> (p(s[j]) <==> j in prev)
    requires idx == if p(s[|s| - 1]) then prev + [|s| - 1] else prev
    ensures forall j :: 0 <= j < |s| ==> (p(s[j]) <==> j in idx)
  {
    assert |s| - 1 !in prev;
  }

  /** The filter is order-preserving and drops nothing that satisfies `p`:
      its result is `s` restricted to exactly the positions where `p` holds. */
  lemma {:induction false} KeepSelectsPositions<T>(s: seq<T>, p: T -> bool) returns (idx: seq<int>)
    ensures SelectedAt(Keep(s, p), s, p, idx)
    decreases |s|
  {
    if |s| == 0 {
      idx := [];
    } else {
      var prev := KeepSelectsPositions(s[..|s| - 1], p);
      idx := SnocSelected(s, p, prev);
    }
  }

  /** An element is in the filtered sequence exactly when it is in the input
      and satisfies the predicate. */
  lemma KeepMembers<T>(s: seq<T>, p: T -> bool)
    ensures forall x :: x in Keep(s, p) <==> x in s && p(x)
  {
    var r := Keep(s, p);
    var idx := KeepSelectsPositions(s, p);
    forall x | x in s && p(x)
      ensures x in r
    {
      var j :| 0 <= j < |s| && s[j] == x;
      assert j in idx;
      var k :| 0 <= k < |idx| && idx[k] == j;
      assert r[k] == x;
    }
    forall x | x in r
      ensures x in s && p(x)
    {
      var k :| 0 <= k < |r| && r[k] == x;
      assert s[idx[k]] == x;
    }
  }

  /** A filter whose predicate accepts every element returns its input. */
  lemma {:induction false} KeepAll<T>(s: seq<T>, p: T -> bool)
    requires forall i :: 0 <= i < |s| ==> p(s[i])
    ensures Keep(s, p) == s
    decreases |s|
  {
    if |s| > 0 {
      var n := |s| - 1;
      var init := s[..n];
      assert forall i :: 0 <= i < n ==> init[i] == s[i];
      KeepAll(init, p);
      assert init + [s[n]] == s;
      KeepSnoc(init, s[n], p);
    }
  }

  /** A filter whose predicate rejects every element returns nothing. */
  lemma {:induction false} KeepNone<T>(s: seq<T>, p: T -> bool)
    requires forall i :: 0 <= i < |s| ==> !p(s[i])
    ensures Keep(s, p) == []
    decreases |s|
  {
    if |s| > 0 {
      KeepNone(s[..|s| - 1], p);
    }
  }

  /** Filtering by `p` and then by `q` is filtering by their conjunction, in
      either order: the order in which predicates are applied does not matter. */
  lemma {:induction false} KeepTwice<T>(s: seq<T>, p: T -> bool, q: T -> bool)
    ensures Keep(Keep(s, p), q) == Keep(s, x => p(x) && q(x))
    ensures Keep(Keep(s, p), q) == Keep(Keep(s, q), p)
    decreases |s|
  {
    if |s| > 0 {
      var n := |s| - 1;
      var x := s[n];
      KeepTwice(s[..n], p, q);
      KeepSnoc(Keep(s[..n], p), x, q);
      KeepSnoc(Keep(s[..n], q), x, p);
    }
  }

  /** Filtering a sequence with one more element at the end. */
  lemma KeepSnoc<T>(s: seq<T>, x: T, p: T -> bool)
    ensures Keep(s + [x], p) == if p(x) then Keep(s, p) + [x] else Keep(s, p)
  {
    assert (s + [x])[..|s|] == s;
  }

  /** `s.findIndex(p)`, with `None` for JavaScript's -1: the position of the
      first element satisfying `p`. */
  function FindFirst<T>(s: seq<T>, p: T -> bool): (r: Option<nat>)
    ensures r.Some? ==> r.value < |s| && p(s[r.value])
    ensures r.Some? ==> forall j :: 0 <= j < r.value ==> !p(s[j])
    ensures r.None? <==> forall j :: 0 <= j < |s| ==> !p(s[j])
    decreases |s|
  {
    if |s| == 0 then None
    else if p(s[0]) then Some(0)
    else match FindFirst(s[1..], p)
      case None => None
      case Some(i) => Some(i + 1)
  }
}
