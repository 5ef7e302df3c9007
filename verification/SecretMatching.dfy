// The unordered match of a masked secret projection to its source: Kuhn's
// augmenting paths over the targets each row could stand for.
module SecretMatching {
  import opened Filters

  type Candidates = seq<seq<nat>>

  // ----- The specification: one-to-one assignments

  // Every row gets one of its own candidates, and no two rows the same one.
  ghost predicate Assignment(candidates: Candidates, f: seq<nat>) {
    && |f| == |candidates|
    && (forall r :: 0 <= r < |f| ==> f[r] in candidates[r])
    && (forall a, b :: 0 <= a < b < |f| ==> f[a] != f[b])
  }

  ghost predicate Assignable(candidates: Candidates) {
    exists f :: Assignment(candidates, f)
  }

  // A set of rows that together have too few candidate targets.
  ghost predicate Violator(candidates: Candidates, rows: set<nat>, targets: set<nat>) {
    && (forall r :: r in rows ==> r < |candidates| && forall t :: t in candidates[r] ==> t in targets)
    && |targets| < |rows|
  }

  // The easy half of Hall's theorem: a violator rules out every assignment.
  lemma ViolatorRefutes(candidates: Candidates, rows: set<nat>, targets: set<nat>)
    requires Violator(candidates, rows, targets)
    ensures !Assignable(candidates)
  {
    forall f | Assignment(candidates, f)
      ensures false
    {
      InjectionSize(f, rows, targets);
    }
  }

  lemma {:induction false} InjectionSize(f: seq<nat>, rows: set<nat>, targets: set<nat>)
    requires forall r :: r in rows ==> r < |f| && f[r] in targets
    requires forall a, b :: 0 <= a < b < |f| ==> f[a] != f[b]
    ensures |rows| <= |targets|
    decreases |rows|
  {
    if r :| r in rows {
      InjectionSize(f, rows - {r}, targets - {f[r]});
    }
  }

  // ----- Matchings, kept as the source keeps them: target to row

  // The targets a row holds.
  ghost function Held(matched: map<nat, nat>, row: nat): set<nat> {
    set t | t in matched && matched[t] == row
  }

  ghost predicate Respects(candidates: Candidates, matched: map<nat, nat>) {
    forall t :: t in matched ==> matched[t] < |candidates| && t in candidates[matched[t]]
  }

  // Exactly the rows below `n` hold a target, one each.
  ghost predicate MatchesRows(candidates: Candidates, matched: map<nat, nat>, n: nat) {
    && Respects(candidates, matched)
    && forall r: nat :: |Held(matched, r)| == if r < n then 1 else 0
  }

  // The rows and targets an unsuccessful search has exhausted.
  ghost predicate Exhausted(candidates: Candidates, matched: map<nat, nat>, row: nat,
                            before: set<nat>, after: set<nat>)
    requires row < |candidates| && Respects(candidates, matched)
  {
    && before <= after
    && (forall t :: t in candidates[row] ==> t in after)
    && (forall t :: t in after - before ==> t in matched && forall u :: u in candidates[matched[t]] ==> u in after)
  }

  ghost function AllTargets(candidates: Candidates): set<nat> {
    set r, k | 0 <= r < |candidates| && 0 <= k < |candidates[r]| :: candidates[r][k]
  }

  // One target more for `row`; every other row holds as many as before, and
  // targets visited earlier are left alone.
  ghost predicate Augmented(candidates: Candidates, first: map<nat, nat>, last: map<nat, nat>,
                            row: nat, before: set<nat>)
  {
    && Respects(candidates, last)
    && first.Keys <= last.Keys
    && (forall t :: t in before ==> (t in first <==> t in last) && (t in first ==> first[t] == last[t]))
    && forall r: nat :: |Held(last, r)| == |Held(first, r)| + if r == row then 1 else 0
  }

  class Matcher {
    const candidates: Candidates
    var matched: map<nat, nat>
    var visited: set<nat>

    constructor (candidates: Candidates)
      ensures this.candidates == candidates && matched == map[] && visited == {}
    {
      this.candidates := candidates;
      matched, visited := map[], {};
    }

    // Finds `row` a target, moving other rows if it must.
    method Assign(row: nat) returns (found: bool)
      requires row < |candidates| && Respects(candidates, matched)
      modifies this
      ensures old(visited) <= visited
      ensures found ==> Augmented(candidates, old(matched), matched, row, old(visited))
      ensures !found ==>
        matched == old(matched) && Exhausted(candidates, matched, row, old(visited), visited)
      decreases AllTargets(candidates) - visited
    {
      for k := 0 to |candidates[row]|
        invariant old(visited) <= visited && matched == old(matched)
        invariant forall j :: 0 <= j < k ==> candidates[row][j] in visited
        invariant forall t :: t in visited - old(visited) ==>
          t in matched && forall u :: u in candidates[matched[t]] ==> u in visited
      {
        var target := candidates[row][k];
        if target in visited {
          continue;
        }
        assert target in AllTargets(candidates);
        visited := visited + {target};
        var free := target !in matched;
        ghost var before := visited;
        if !free {
          free := Assign(matched[target]);
        }
        if free {
          ghost var moved := matched;
          matched := matched[target := row];
          HandOver(candidates, old(matched), moved, row, target, old(visited), before);
          return true;
        }
      }
      return false;
    }

    // Matches every row, in order, each with a fresh set of visited targets.
    method MatchAll() returns (all: bool)
      requires matched == map[]
      modifies this
      ensures all <==> Assignable(candidates)
      ensures all ==> MatchesRows(candidates, matched, |candidates|)
      ensures !all ==> exists row: nat :: Violator(candidates, Reached(matched, row, visited), visited)
    {
      for row := 0 to |candidates|
        invariant MatchesRows(candidates, matched, row)
      {
        visited := {};
        ghost var before := matched;
        var found := Assign(row);
        if !found {
          SearchViolates(candidates, matched, row, visited);
          ViolatorRefutes(candidates, Reached(matched, row, visited), visited);
          return false;
        }
      }
      MatchingAssigns(candidates, matched);
      return true;
    }
  }

  // What the recursive search leaves behind before `target` goes to `row`:
  // nothing new when it was free, one target more for the row that held it.
  ghost predicate Vacated(candidates: Candidates, first: map<nat, nat>, moved: map<nat, nat>, target: nat,
                          before: set<nat>) {
    && target in before
    && if target in first then Augmented(candidates, first, moved, first[target], before) else moved == first
  }

  lemma HandOver(candidates: Candidates, first: map<nat, nat>, moved: map<nat, nat>, row: nat, target: nat,
                 visited: set<nat>, before: set<nat>)
    requires row < |candidates| && target in candidates[row] && target !in visited && before >= visited
    requires Respects(candidates, first)
    requires Vacated(candidates, first, moved, target, before)
    ensures Augmented(candidates, first, moved[target := row], row, visited)
  {
    forall r: nat
      ensures |Held(moved[target := row], r)| == |Held(first, r)| + if r == row then 1 else 0
    {
      HandOverRow(candidates, first, moved, row, target, before, r);
    }
  }

  lemma HandOverRow(candidates: Candidates, first: map<nat, nat>, moved: map<nat, nat>, row: nat, target: nat,
                    before: set<nat>, r: nat)
    requires Vacated(candidates, first, moved, target, before)
    ensures |Held(moved[target := row], r)| == |Held(first, r)| + if r == row then 1 else 0
  {
    var now, was := Held(moved[target := row], r), Held(moved, r);
    assert now == if r == row then was + {target} else was - {target};
    assert target in was <==> target in first && first[target] == r;
  }

  // The row the search started from and the rows its visited targets hold.
  ghost function Reached(matched: map<nat, nat>, row: nat, visited: set<nat>): set<nat> {
    {row} + set t | t in visited && t in matched :: matched[t]
  }

  // A failed search from a row without a target leaves a Hall violator.
  lemma SearchViolates(candidates: Candidates, matched: map<nat, nat>, row: nat, visited: set<nat>)
    requires row < |candidates| && MatchesRows(candidates, matched, row)
    requires Exhausted(candidates, matched, row, {}, visited)
    ensures Violator(candidates, Reached(matched, row, visited), visited)
  {
    ReachedSize(candidates, matched, row, visited);
    assert visited - {} == visited;
  }

  lemma ReachedSize(candidates: Candidates, matched: map<nat, nat>, row: nat, visited: set<nat>)
    requires MatchesRows(candidates, matched, row) && visited <= matched.Keys
    ensures |Reached(matched, row, visited)| == |visited| + 1
  {
    forall t, u | t in visited && u in visited && t != u
      ensures matched[t] != matched[u]
    {
      OneEach(matched, matched[t], t, u);
    }
    ImageSize(matched, visited);
    assert Held(matched, row) == {};
    forall t | t in visited
      ensures matched[t] != row
    {
      assert matched[t] == row ==> t in Held(matched, row);
    }
  }

  lemma OneEach(matched: map<nat, nat>, r: nat, t: nat, u: nat)
    requires |Held(matched, r)| <= 1 && t in matched && u in matched && matched[t] == r && t != u
    ensures matched[u] != r
  {
    if matched[u] == r {
      assert {t, u} <= Held(matched, r);
      SubsetSize({t, u}, Held(matched, r));
    }
  }

  lemma {:induction false} ImageSize(matched: map<nat, nat>, visited: set<nat>)
    requires visited <= matched.Keys
    requires forall t, u :: t in visited && u in visited && t != u ==> matched[t] != matched[u]
    ensures |set t | t in visited && t in matched :: matched[t]| == |visited|
    decreases visited
  {
    var image := set t | t in visited && t in matched :: matched[t];
    if v :| v in visited {
      ImageSize(matched, visited - {v});
      assert image == (set t | t in visited - {v} && t in matched :: matched[t]) + {matched[v]};
    }
  }

  // A matching of all rows is a one-to-one assignment.
  lemma MatchingAssigns(candidates: Candidates, matched: map<nat, nat>)
    requires MatchesRows(candidates, matched, |candidates|)
    ensures Assignable(candidates)
  {
    var f := Chosen(candidates, matched, |candidates|);
    assert Assignment(candidates, f);
  }

  ghost function Chosen(candidates: Candidates, matched: map<nat, nat>, n: nat): (f: seq<nat>)
    requires n <= |candidates| && MatchesRows(candidates, matched, |candidates|)
    ensures |f| == n && forall r :: 0 <= r < n ==> f[r] in matched && matched[f[r]] == r
  {
    if n == 0 then []
    else
      assert Held(matched, n - 1) != {};
      var t :| t in Held(matched, n - 1);
      Chosen(candidates, matched, n - 1) + [t]
  }
}
