// Disjunctions of conjunctions of environment markers, as kept by the HTTP
// dependency closure.  A clause is the set of markers that must all hold; a
// condition holds when one of its clauses does.
module MarkerConditions {

  type Marker = string
  type Clause = set<Marker>
  type Condition = set<Clause>

  const ALWAYS: Condition := {{}}

  ghost predicate Covers(condition: Condition, clause: Clause) {
    exists c :: c in condition && c <= clause
  }

  ghost predicate Antichain(condition: Condition) {
    forall a, b :: a in condition && b in condition && a <= b ==> a == b
  }

  // The truth assignment is the set of markers that hold.
  ghost predicate Holds(condition: Condition, truth: set<Marker>) {
    Covers(condition, truth)
  }

  // Absorption: a clause implied by a strictly shorter one is dropped.
  function Simplify(condition: Condition): (r: Condition)
    ensures Antichain(r) && r <= condition
  {
    set clause | clause in condition && !exists other :: other in condition && other < clause
  }

  function Both(left: Condition, right: Condition): Condition {
    Simplify(set a, b | a in left && b in right :: a + b)
  }

  lemma {:induction false} MinimalBelow(condition: Condition, clause: Clause) returns (m: Clause)
    requires clause in condition
    ensures m in Simplify(condition) && m <= clause
    decreases clause
  {
    if other :| other in condition && other < clause {
      m := MinimalBelow(condition, other);
    } else {
      m := clause;
    }
  }

  // Absorption does not change what a condition covers, so not what it means.
  lemma SimplifyCovers(condition: Condition, clause: Clause)
    ensures Covers(Simplify(condition), clause) <==> Covers(condition, clause)
  {
    if c :| c in condition && c <= clause {
      var m := MinimalBelow(condition, c);
    }
  }

  lemma BothCovers(left: Condition, right: Condition, clause: Clause)
    ensures Covers(Both(left, right), clause) <==> Covers(left, clause) && Covers(right, clause)
  {
    var products := set a, b | a in left && b in right :: a + b;
    SimplifyCovers(products, clause);
    if Covers(left, clause) && Covers(right, clause) {
      var a :| a in left && a <= clause;
      var b :| b in right && b <= clause;
      assert a + b in products;
    }
  }

  // Absorption keeps the meaning, and conjunction is conjunction of meanings.
  lemma ConnectivesMeaning(left: Condition, right: Condition, truth: set<Marker>)
    ensures Holds(Simplify(left), truth) <==> Holds(left, truth)
    ensures Holds(Both(left, right), truth) <==> Holds(left, truth) && Holds(right, truth)
  {
    SimplifyCovers(left, truth);
    BothCovers(left, right, truth);
  }

  // An antichain is canonical for its upward closure: no two different
  // simplified conditions cover the same clauses.
  lemma {:induction false} AntichainCanonical(a: Condition, b: Condition)
    requires Antichain(a) && Antichain(b)
    requires forall c :: c in a ==> Covers(b, c)
    requires forall c :: c in b ==> Covers(a, c)
    ensures a == b
  {
  }

  // So merging a condition into a simplified one either changes nothing or
  // covers a clause that was not covered before.
  lemma MergeGrows(known: Condition, condition: Condition) returns (grown: Clause)
    requires Antichain(known)
    requires Simplify(known + condition) != known
    ensures grown in Simplify(known + condition) && grown in condition && !Covers(known, grown)
  {
    var merged := Simplify(known + condition);
    if forall c :: c in merged ==> Covers(known, c) {
      forall c | c in known
        ensures Covers(merged, c)
      {
        SimplifyCovers(known + condition, c);
      }
      AntichainCanonical(known, merged);
      assert false;
    }
    grown :| grown in merged && !Covers(known, grown);
  }
}
