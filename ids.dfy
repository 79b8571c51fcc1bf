/** Sequences of todo ids: the key order of the store and the `order` list of a reorder. */
module IdSeqs {

  predicate Increasing(s: seq<int>) {
    forall i, j :: 0 <= i < j < |s| ==> s[i] < s[j]
  }

  predicate Distinct(s: seq<int>) {
    forall i, j :: 0 <= i < j < |s| ==> s[i] != s[j]
  }

  lemma IncreasingIsDistinct(s: seq<int>)
    requires Increasing(s)
    ensures Distinct(s)
  {
  }

  /** The elements of `s` that do not occur in `t`, in their order in `s`. */
  function Without(s: seq<int>, t: seq<int>): (r: seq<int>)
    ensures |r| <= |s|
    ensures forall x :: x in r <==> x in s && x !in t
    ensures Increasing(s) ==> Increasing(r)
  {
    if s == [] then []
    else if s[0] in t then Without(s[1..], t)
    else
      var rest := Without(s[1..], t);
      assert Increasing(s) ==> forall k :: 0 <= k < |rest| ==> s[0] < rest[k] by {
        if Increasing(s) {
          forall k | 0 <= k < |rest|
            ensures s[0] < rest[k]
          {
            assert rest[k] in rest;
            var j :| 0 <= j < |s[1..]| && s[1..][j] == rest[k];
            assert s[j + 1] == rest[k];
          }
        }
      }
      [s[0]] + rest
  }

  /** Removing the elements of `t` and then `x` is removing those of `t + [x]`. */
  lemma {:induction false} WithoutSnoc(s: seq<int>, t: seq<int>, x: int)
    ensures Without(Without(s, t), [x]) == Without(s, t + [x])
  {
    if s != [] {
      WithoutSnoc(s[1..], t, x);
      if s[0] !in t {
        assert Without(s, t) == [s[0]] + Without(s[1..], t);
        assert ([s[0]] + Without(s[1..], t))[1..] == Without(s[1..], t);
      }
    }
  }

  /** Removing nothing keeps the sequence. */
  lemma {:induction false} WithoutNothing(s: seq<int>)
    ensures Without(s, []) == s
  {
    if s != [] {
      WithoutNothing(s[1..]);
      assert s == [s[0]] + s[1..];
    }
  }

  /** The elements of `s`, as a set. */
  function Elems(s: seq<int>): (r: set<int>)
    ensures forall x :: x in r <==> x in s
  {
    set x | x in s
  }

  /** The index of the last occurrence of `x` in `s`. */
  function LastIndex(s: seq<int>, x: int): (i: nat)
    requires x in s
    ensures i < |s| && s[i] == x
    ensures forall j :: i < j < |s| ==> s[j] != x
  {
    if s[|s| - 1] == x then |s| - 1
    else
      assert x in s[..|s| - 1] by {
        var k :| 0 <= k < |s| && s[k] == x;
        assert s[..|s| - 1][k] == x;
      }
      LastIndex(s[..|s| - 1], x)
  }

  /** The index of the first occurrence of `x` in `s`. */
  function IndexOf(s: seq<int>, x: int): (i: nat)
    requires x in s
    ensures i < |s| && s[i] == x
    ensures forall j :: 0 <= j < i ==> s[j] != x
  {
    if s[0] == x then 0 else 1 + IndexOf(s[1..], x)
  }

  /** The elements of a duplicate-free sequence are as many as its length. */
  lemma {:induction false} DistinctCard(s: seq<int>)
    requires Distinct(s)
    ensures |set x | x in s| == |s|
  {
    if s != [] {
      DistinctCard(s[1..]);
      assert (set x | x in s) == (set x | x in s[1..]) + {s[0]};
      assert s[0] !in s[1..];
    }
  }

  /** The elements of `s` outside `t` are as many as `|s| - |t|` when `t` lists distinct elements of `s`. */
  lemma WithoutCard(s: seq<int>, t: seq<int>)
    requires Distinct(s) && Distinct(t)
    requires forall x :: x in t ==> x in s
    ensures |Without(s, t)| == |s| - |t|
  {
    var r := Without(s, t);
    WithoutDistinct(s, t);
    DistinctCard(s);
    DistinctCard(t);
    DistinctCard(r);
    assert (set x | x in r) == (set x | x in s) - (set x | x in t);
  }

  lemma {:induction false} WithoutDistinct(s: seq<int>, t: seq<int>)
    requires Distinct(s)
    ensures Distinct(Without(s, t))
  {
    if s != [] {
      WithoutDistinct(s[1..], t);
    }
  }

  /** A strictly increasing sequence of `n` integers drawn from `1..n` is exactly `1, 2, ..., n`. */
  lemma IncreasingInRange(s: seq<int>)
    requires Increasing(s)
    requires forall i :: 0 <= i < |s| ==> 1 <= s[i] <= |s|
    ensures forall i :: 0 <= i < |s| ==> s[i] == i + 1
  {
    forall i | 0 <= i < |s|
      ensures s[i] == i + 1
    {
      IncreasingSpread(s, 0, i);
      IncreasingSpread(s, i, |s| - 1);
    }
  }

  /** Two entries of a strictly increasing sequence differ at least by their distance. */
  lemma {:induction false} IncreasingSpread(s: seq<int>, i: nat, j: nat)
    requires Increasing(s)
    requires i <= j < |s|
    ensures s[j] - s[i] >= j - i
  {
    if i < j {
      IncreasingSpread(s, i, j - 1);
    }
  }
}
