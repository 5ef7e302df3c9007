// The elements of a list that pass a test, when there is exactly one, and the
// sizes of sets.
module Filters {
  function Filter<T(!new)>(s: seq<T>, test: T -> bool): (r: seq<T>)
    ensures forall x :: x in r <==> x in s && test(x)
  {
    if s == [] then [] else (if test(s[0]) then [s[0]] else []) + Filter(s[1..], test)
  }

  lemma {:induction false} FilterAppend<T(!new)>(s: seq<T>, x: T, test: T -> bool)
    ensures Filter(s + [x], test) == Filter(s, test) + if test(x) then [x] else []
  {
    if s == [] {
      assert [x][1..] == [];
    } else {
      FilterAppend(s[1..], x, test);
      assert (s + [x])[1..] == s[1..] + [x] && (s + [x])[0] == s[0];
      var head, last := if test(s[0]) then [s[0]] else [], if test(x) then [x] else [];
      assert Filter(s + [x], test) == head + (Filter(s[1..], test) + last);
      assert head + (Filter(s[1..], test) + last) == head + Filter(s[1..], test) + last;
    }
  }

  // The element at `i` passes the test, and no other does.
  ghost predicate OnlyAt<T(!new)>(s: seq<T>, test: T -> bool, i: nat) {
    i < |s| && test(s[i]) && forall j :: 0 <= j < |s| && j != i ==> !test(s[j])
  }

  lemma {:induction false} OnlyFiltered<T(!new)>(s: seq<T>, test: T -> bool, x: T)
    ensures Filter(s, test) == [x] <==> exists i: nat :: OnlyAt(s, test, i) && s[i] == x
  {
    if s != [] {
      var rest := s[1..];
      OnlyFiltered(rest, test, x);
      assert forall k :: 0 < k < |s| ==> s[k] == rest[k-1] && rest[k-1] in rest;
      if test(s[0]) {
        assert Filter(s, test) == [s[0]] + Filter(rest, test);
        if Filter(rest, test) == [] {
          assert forall k :: 0 <= k < |rest| ==> rest[k] !in Filter(rest, test);
          assert OnlyAt(s, test, 0);
        } else {
          assert Filter(rest, test)[0] in Filter(rest, test) && |Filter(s, test)| > 1;
        }
      } else {
        forall i: nat | i < |rest| ensures OnlyAt(rest, test, i) <==> OnlyAt(s, test, i + 1) {
        }
        if i: nat :| OnlyAt(s, test, i) && s[i] == x {
          assert OnlyAt(rest, test, i - 1);
        }
        if i: nat :| OnlyAt(rest, test, i) && rest[i] == x {
          assert OnlyAt(s, test, i + 1);
        }
      }
    }
  }

  // When just one is left, it is the only one that passes.
  lemma OneLeft<T(!new)>(s: seq<T>, test: T -> bool)
    ensures |Filter(s, test)| == 1 <==> exists i: nat :: OnlyAt(s, test, i)
    ensures forall i: nat :: OnlyAt(s, test, i) ==> Filter(s, test) == [s[i]]
  {
    forall x ensures Filter(s, test) == [x] <==> exists i: nat :: OnlyAt(s, test, i) && s[i] == x {
      OnlyFiltered(s, test, x);
    }
    if |Filter(s, test)| == 1 {
      assert Filter(s, test) == [Filter(s, test)[0]];
    }
  }

  lemma SubsetSize<T>(a: set<T>, b: set<T>)
    requires a <= b
    ensures |a| <= |b|
  {
    assert b == a + (b - a);
  }
}
