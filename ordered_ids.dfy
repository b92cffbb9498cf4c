/** Sets of ids as the daemon keeps them in `BTreeSet<usize>`: iteration visits them in
    ascending order, and a free id always exists while the set is not the whole of `usize`. */
module OrderedIds {
  import opened Native

  predicate StrictlyIncreasing(ids: seq<usize>)
  {
    forall i, j :: 0 <= i < j < |ids| ==> ids[i] < ids[j]
  }

  /** `m` is the least element of `s`. */
  predicate IsLeast(m: usize, s: set<usize>)
  {
    m in s && forall x :: x in s ==> m <= x
  }

  lemma {:induction false} LeastExists(s: set<usize>)
    requires s != {}
    ensures exists m :: IsLeast(m, s)
  {
    var y :| y in s;
    if s == {y} {
      assert IsLeast(y, s);
    } else {
      var s' := s - {y};
      LeastExists(s');
      var m :| IsLeast(m, s');
      var least := if y < m then y else m;
      forall x | x in s ensures least <= x {
        if x != y {
          assert x in s';
        }
      }
      assert IsLeast(least, s);
    }
  }

  /** The smallest id of a non-empty set. */
  ghost function Least(s: set<usize>): (m: usize)
    requires s != {}
    ensures m in s && forall x :: x in s ==> m <= x
  {
    LeastExists(s);
    var m :| IsLeast(m, s); m
  }

  /** The ids of a set in the order a `BTreeSet` iterates them. */
  ghost function Ascending(s: set<usize>): (ids: seq<usize>)
    decreases s
  {
    if s == {} then []
    else
      var m := Least(s);
      [m] + Ascending(s - {m})
  }

  /** Ascending order lists each id of the set exactly once, smallest first. */
  lemma AscendingSpec(s: set<usize>)
    ensures |Ascending(s)| == |s|
    ensures forall x :: x in Ascending(s) <==> x in s
    ensures StrictlyIncreasing(Ascending(s))
  {
    AscendingMembers(s);
    AscendingIncreasing(s);
  }

  lemma {:induction false} AscendingMembers(s: set<usize>)
    ensures |Ascending(s)| == |s|
    ensures forall x :: x in Ascending(s) <==> x in s
    decreases s
  {
    if s != {} {
      var m := Least(s);
      var rest := Ascending(s - {m});
      AscendingMembers(s - {m});
      assert Ascending(s) == [m] + rest;
    }
  }

  lemma {:induction false} AscendingIncreasing(s: set<usize>)
    ensures StrictlyIncreasing(Ascending(s))
    decreases s
  {
    if s != {} {
      var m := Least(s);
      var rest := Ascending(s - {m});
      AscendingIncreasing(s - {m});
      AscendingMembers(s - {m});
      forall k | 0 <= k < |rest| ensures m < rest[k] {
        assert rest[k] in s - {m};
      }
      ConsIncreasing(m, rest);
    }
  }

  lemma ConsIncreasing(m: usize, rest: seq<usize>)
    requires StrictlyIncreasing(rest)
    requires forall k :: 0 <= k < |rest| ==> m < rest[k]
    ensures StrictlyIncreasing([m] + rest)
  {
    var ids := [m] + rest;
    forall i, j | 0 <= i < j < |ids| ensures ids[i] < ids[j] {
      assert ids[j] == rest[j - 1];
      if i > 0 {
        assert ids[i] == rest[i - 1];
      }
    }
  }

  /** One step of a `BTreeSet` iterator: the least remaining id and the ids after it. */
  method PopLeast(s: set<usize>) returns (m: usize, rest: set<usize>)
    requires s != {}
    ensures m in s && rest == s - {m}
    ensures Ascending(s) == [m] + Ascending(rest)
  {
    LeastExists(s);
    m :| IsLeast(m, s);
    rest := s - {m};
    assert m == Least(s);
  }

  /** Taking one id from the front of what is left moves it to the end of what is done. */
  lemma AscendingAdvance(done: seq<usize>, remaining: set<usize>, m: usize, rest: set<usize>)
    requires Ascending(remaining) == [m] + Ascending(rest)
    ensures done + Ascending(remaining) == (done + [m]) + Ascending(rest)
  {
  }

  /** The integers 0 up to, not including, `n`. */
  function Range(n: nat): (r: set<int>)
    ensures |r| == n
    ensures forall x :: x in r <==> 0 <= x < n
  {
    if n == 0 then {} else Range(n - 1) + {n - 1}
  }

  lemma SubsetSize(a: set<int>, b: set<int>)
    requires a <= b
    ensures |a| <= |b|
  {
    assert b == a + (b - a);
  }

  /** A set of fewer than 2^64 ids leaves some `usize` free. */
  lemma FreshIdExists(used: set<usize>)
    requires |used| < USIZE_COUNT
    ensures exists id: usize :: id !in used
  {
    if forall id: usize :: id in used {
      var all := Range(USIZE_COUNT);
      var usedInts: set<int> := used;
      assert all <= usedInts;
      SubsetSize(all, usedInts);
      assert false;
    }
  }
}
