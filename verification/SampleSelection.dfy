// Keeping the first few of a stream of candidates: appending each, sorting and
// truncating, against sorting all of them once.
module SampleSelection {
  datatype Candidate<T> = Candidate(priority: nat, index: nat, item: T)

  predicate Before<T>(a: Candidate<T>, b: Candidate<T>) {
    a.priority < b.priority || (a.priority == b.priority && a.index < b.index)
  }

  ghost predicate Sorted<T>(s: seq<Candidate<T>>) {
    forall i, j :: 0 <= i < j < |s| ==> !Before(s[j], s[i])
  }

  // Stable insertion.
  function Insert<T>(s: seq<Candidate<T>>, x: Candidate<T>): (r: seq<Candidate<T>>)
    ensures |r| == |s| + 1
  {
    if s == [] || !Before(x, s[|s|-1]) then s + [x] else Insert(s[..|s|-1], x) + [s[|s|-1]]
  }

  function Arrange<T>(s: seq<Candidate<T>>): (r: seq<Candidate<T>>)
    ensures |r| == |s|
  {
    if s == [] then [] else Insert(Arrange(s[..|s|-1]), s[|s|-1])
  }

  lemma {:induction false} InsertPermutes<T>(s: seq<Candidate<T>>, x: Candidate<T>)
    ensures multiset(Insert(s, x)) == multiset(s) + multiset{x}
  {
    if s != [] && Before(x, s[|s|-1]) {
      InsertPermutes(s[..|s|-1], x);
      assert s == s[..|s|-1] + [s[|s|-1]];
    }
  }

  lemma {:induction false} ArrangePermutes<T>(s: seq<Candidate<T>>)
    ensures multiset(Arrange(s)) == multiset(s)
  {
    if s != [] {
      ArrangePermutes(s[..|s|-1]);
      InsertPermutes(Arrange(s[..|s|-1]), s[|s|-1]);
      assert s == s[..|s|-1] + [s[|s|-1]];
    }
  }

  function First<T>(k: nat, s: seq<Candidate<T>>): seq<Candidate<T>> {
    if |s| <= k then s else s[..k]
  }

  lemma {:induction false} InsertSorts<T>(s: seq<Candidate<T>>, x: Candidate<T>)
    requires Sorted(s)
    ensures Sorted(Insert(s, x))
  {
    if s == [] || !Before(x, s[|s|-1]) {
    } else {
      var prefix, last := s[..|s|-1], s[|s|-1];
      InsertSorts(prefix, x);
      InsertPermutes(prefix, x);
      var r := Insert(prefix, x);
      forall i | 0 <= i < |r|
        ensures !Before(last, r[i])
      {
        assert r[i] in multiset(r);
        assert r[i] in prefix || r[i] == x;
      }
    }
  }

  lemma {:induction false} ArrangeSorts<T>(s: seq<Candidate<T>>)
    ensures Sorted(Arrange(s))
  {
    if s != [] {
      ArrangeSorts(s[..|s|-1]);
      InsertSorts(Arrange(s[..|s|-1]), s[|s|-1]);
    }
  }

  lemma {:induction false} SortedStays<T>(s: seq<Candidate<T>>)
    requires Sorted(s)
    ensures Arrange(s) == s
  {
    if s != [] {
      SortedStays(s[..|s|-1]);
      assert s == s[..|s|-1] + [s[|s|-1]];
    }
  }

  // Truncating before an insertion loses nothing of what is kept after it.
  lemma {:induction false} TruncationCommutes<T>(k: nat, s: seq<Candidate<T>>, x: Candidate<T>)
    requires Sorted(s)
    ensures First(k, Insert(First(k, s), x)) == First(k, Insert(s, x))
  {
    if |s| > k {
      var prefix, last := s[..|s|-1], s[|s|-1];
      assert First(k, prefix) == First(k, s);
      if Before(x, last) {
        TruncationCommutes(k, prefix, x);
      } else {
        assert k > 0 ==> !Before(last, s[k-1]) && !Before(x, s[k-1]);
      }
    }
  }

  // One step of the stream: with the best `k` so far in hand, appending, sorting
  // and truncating gives the best `k` of all.
  lemma StreamStep<T>(k: nat, seen: seq<Candidate<T>>, x: Candidate<T>)
    ensures First(k, Arrange(First(k, Arrange(seen)) + [x])) == First(k, Arrange(seen + [x]))
  {
    var held := First(k, Arrange(seen));
    ArrangeSorts(seen);
    SortedStays(held);
    assert (held + [x])[..|held|] == held && (seen + [x])[..|seen|] == seen;
    TruncationCommutes(k, Arrange(seen), x);
  }

  // What is kept: as many as allowed, in order, and nothing left out comes
  // before anything kept.
  lemma FirstAreBest<T>(k: nat, all: seq<Candidate<T>>, x: Candidate<T>)
    requires x in all && x !in First(k, Arrange(all))
    ensures |First(k, Arrange(all))| == k
    ensures forall y :: y in First(k, Arrange(all)) ==> y in all && !Before(x, y)
  {
    ArrangeSorts(all);
    ArrangePermutes(all);
    var s := Arrange(all);
    assert x in multiset(s);
    var i :| 0 <= i < |s| && s[i] == x;
    forall y | y in First(k, s)
      ensures y in all && !Before(x, y)
    {
      assert y in multiset(s);
      var j :| 0 <= j < k && s[j] == y;
      assert i >= k ==> !Before(s[i], s[j]);
    }
  }
}
