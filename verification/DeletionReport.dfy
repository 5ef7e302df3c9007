// The report over a whole cohort: how it is collected, when it calls itself
// complete, and the validation every collected report passes.
module DeletionReport {
  import opened Wrappers
  import opened Filters
  import opened DeletionRecords
  import opened DeletionScan
  import opened DeletionVerdict
  import opened DeletionAssessment

  datatype Blob = BlobNotRequested | BlobObserved | BlobUnknown

  // What is observed beside the cohort: whether the account and each container
  // are compatible, and what is known of backups and of the blob container.
  datatype Surroundings = Surroundings(compatible: seq<bool>, backupObserved: bool, blob: Blob)
  {
    predicate LayoutOk() { forall i :: 0 <= i < |compatible| ==> compatible[i] }
  }

  type Tallies = map<Classification, nat>

  datatype Coverage = Coverage(declared: nat, inventoryComplete: nat, classifications: Tallies, withIssues: nat)

  datatype Report = Report(surroundings: Surroundings, rows: seq<CohortRow>, summary: Coverage, complete: bool,
                           startedAt: int, observedAt: int, seal: string)

  predicate CompleteObservations(r: Report) {
    && r.surroundings.LayoutOk()
    && r.surroundings.backupObserved
    && !r.surroundings.blob.BlobUnknown?
    && forall i :: 0 <= i < |r.rows| ==> RowComplete(r.rows[i])
  }

  function TallyRows(rows: seq<CohortRow>): Tallies {
    if rows == [] then map[]
    else
      var before, c := TallyRows(rows[..|rows|-1]), rows[|rows|-1].classification;
      before[c := 1 + if c in before then before[c] else 0]
  }

  function CountRows(rows: seq<CohortRow>, p: CohortRow -> bool): nat {
    if rows == [] then 0
    else CountRows(rows[..|rows|-1], p) + if p(rows[|rows|-1]) then 1 else 0
  }

  function CoverageOf(rows: seq<CohortRow>): Coverage {
    Coverage(|rows|, CountRows(rows, (row: CohortRow) => row.inventoryComplete), TallyRows(rows),
             CountRows(rows, (row: CohortRow) => row.issues != {}))
  }

  lemma {:induction false} CountIsFilter(rows: seq<CohortRow>, p: CohortRow -> bool)
    ensures CountRows(rows, p) == |Filter(rows, p)|
  {
    if rows != [] {
      var n := |rows| - 1;
      CountIsFilter(rows[..n], p);
      FilterAppend(rows[..n], rows[n], p);
      assert rows == rows[..n] + [rows[n]];
    }
  }

  // The coverage counts all rows, those read to the end, and those with issues.
  lemma CoverageMeans(rows: seq<CohortRow>)
    ensures CoverageOf(rows).declared == |rows|
    ensures CoverageOf(rows).inventoryComplete == |Filter(rows, (row: CohortRow) => row.inventoryComplete)|
    ensures CoverageOf(rows).withIssues == |Filter(rows, (row: CohortRow) => row.issues != {})|
  {
    CountIsFilter(rows, (row: CohortRow) => row.inventoryComplete);
    CountIsFilter(rows, (row: CohortRow) => row.issues != {});
  }

  // `digest` stands for the content hash of everything but the seal.
  function SealOf(r: Report, digest: Report -> string): string {
    digest(r.(seal := ""))
  }

  datatype Fault = DigestMismatch | CoverageMismatch | CompletenessMismatch | BadTimeRange

  predicate DistinctPairs(pairs: seq<Pair>) {
    forall i, j :: 0 <= i < j < |pairs| ==> pairs[i] != pairs[j]
  }

  function PairsOf(rows: seq<CohortRow>): seq<Pair> {
    seq(|rows|, i requires 0 <= i < |rows| => rows[i].pair)
  }

  function Validate(r: Report, digest: Report -> string): Result<(), Fault> {
    if r.seal != SealOf(r, digest) then Err(DigestMismatch)
    else if r.summary != CoverageOf(r.rows) || !DistinctPairs(PairsOf(r.rows)) then Err(CoverageMismatch)
    else if exists i :: 0 <= i < |r.rows| && !Coherent(r.rows[i]) then Err(CoverageMismatch)
    else if r.complete != CompleteObservations(r) then Err(CompletenessMismatch)
    else if r.observedAt < r.startedAt then Err(BadTimeRange)
    else Ok(())
  }

  // The whole cohort as seen, each conversation with what the ones before it
  // left of the budget.
  ghost function ObservedAll(answers: seq<Answers>, cohort: seq<Pair>, storage: Option<string>, at: Spent)
    : Option<(seq<Sighting>, Spent)>
    requires |answers| == |cohort|
  {
    if cohort == [] then Some(([], at))
    else
      var n := |cohort| - 1;
      var (seen, spent) :- ObservedAll(answers[..n], cohort[..n], storage, at);
      var (last, after) :- Observed(answers[n], cohort[n], storage, spent);
      Some((seen + [last], after))
  }

  ghost predicate AllWitnessed(seen: seq<Sighting>, answers: seq<Answers>, cohort: seq<Pair>, storage: Option<string>) {
    && |seen| == |cohort| == |answers|
    && forall i :: 0 <= i < |cohort| ==> Witnessed(seen[i], answers[i], cohort[i], storage)
  }

  // Every sighting rests on records that agree.
  lemma {:induction false} AllRest(answers: seq<Answers>, cohort: seq<Pair>, storage: Option<string>, at: Spent)
    requires |answers| == |cohort| && ObservedAll(answers, cohort, storage, at).Some?
    ensures AllWitnessed(ObservedAll(answers, cohort, storage, at).value.0, answers, cohort, storage)
  {
    if cohort != [] {
      var n := |cohort| - 1;
      var before := ObservedAll(answers[..n], cohort[..n], storage, at).value;
      AllRest(answers[..n], cohort[..n], storage, at);
      Rests(answers[n], cohort[n], storage, before.1);
      OneMoreRests(before.0, answers, cohort, storage, Observed(answers[n], cohort[n], storage, before.1).value.0);
    }
  }

  lemma OneMoreRests(seen: seq<Sighting>, answers: seq<Answers>, cohort: seq<Pair>, storage: Option<string>,
                     last: Sighting)
    requires |answers| == |cohort| > 0
    requires AllWitnessed(seen, answers[..|cohort|-1], cohort[..|cohort|-1], storage)
    requires Witnessed(last, answers[|cohort|-1], cohort[|cohort|-1], storage)
    ensures AllWitnessed(seen + [last], answers, cohort, storage)
  {
    var n := |cohort| - 1;
    forall i | 0 <= i < n ensures Witnessed((seen + [last])[i], answers[i], cohort[i], storage) {
      assert Witnessed(seen[i], answers[..n][i], cohort[..n][i], storage);
    }
  }

  // The rows collected so far: all of them complete exactly when all was seen.
  ghost predicate Collected(rows: seq<CohortRow>, seen: Option<(seq<Sighting>, Spent)>, spent: Spent) {
    && ((forall k :: 0 <= k < |rows| ==> RowComplete(rows[k])) <==> seen.Some?)
    && (seen.Some? ==> seen.value.1 == spent)
  }

  ghost predicate RowsFor(rows: seq<CohortRow>, cohort: seq<Pair>) {
    |rows| <= |cohort| && forall k :: 0 <= k < |rows| ==> rows[k].pair == cohort[k] && Coherent(rows[k])
  }

  lemma OneMore(rows: seq<CohortRow>, row: CohortRow, answers: seq<Answers>, cohort: seq<Pair>, storage: Option<string>,
                at: Spent, before: Spent, after: Spent)
    requires |rows| < |cohort| == |answers|
    requires Collected(rows, ObservedAll(answers[..|rows|], cohort[..|rows|], storage, at), before)
    requires Concluded(row, cohort[|rows|], Observed(answers[|rows|], cohort[|rows|], storage, before), after)
    ensures Collected(rows + [row], ObservedAll(answers[..|rows|+1], cohort[..|rows|+1], storage, at), after)
  {
    var n := |rows|;
    assert answers[..n+1][..n] == answers[..n] && cohort[..n+1][..n] == cohort[..n];
    assert (rows + [row])[n] == row;
    assert forall k :: 0 <= k < n ==> (rows + [row])[k] == rows[k];
  }

  // A report passes exactly when its seal, its counts, each conversation's counts,
  // its completeness and its times all fit its rows, and no conversation is twice
  // in it; the first that does not is the fault.
  lemma ValidateMeans(r: Report, digest: Report -> string)
    ensures Validate(r, digest) == Ok(()) <==>
      && r.seal == digest(r.(seal := "")) && r.summary == CoverageOf(r.rows)
      && (forall i, j :: 0 <= i < j < |r.rows| ==> r.rows[i].pair != r.rows[j].pair)
      && (forall i :: 0 <= i < |r.rows| ==>
            && r.rows[i].messages.valid + r.rows[i].messages.invalid == r.rows[i].messages.received
            && r.rows[i].documents.valid + r.rows[i].documents.invalid == r.rows[i].documents.received)
      && (r.complete <==> CompleteObservations(r)) && r.startedAt <= r.observedAt
    ensures Validate(r, digest) == Err(DigestMismatch) <==> r.seal != digest(r.(seal := ""))
    ensures Validate(r, digest) == Err(BadTimeRange) ==> r.observedAt < r.startedAt
    ensures Validate(r, digest) == Err(CoverageMismatch) ==>
      || r.summary != CoverageOf(r.rows)
      || (exists i, j :: 0 <= i < j < |r.rows| && r.rows[i].pair == r.rows[j].pair)
      || (exists i :: 0 <= i < |r.rows| && !Coherent(r.rows[i]))
    ensures Validate(r, digest) == Err(CompletenessMismatch) ==> !(r.complete <==> CompleteObservations(r))
  {
    assert forall i :: 0 <= i < |r.rows| ==> PairsOf(r.rows)[i] == r.rows[i].pair;
  }

  // Complete observations are those of a compatible layout, a known backup and a
  // known or unwanted blob container, all rows complete.
  lemma CompleteMeans(r: Report)
    ensures CompleteObservations(r) <==>
      && (forall i :: 0 <= i < |r.surroundings.compatible| ==> r.surroundings.compatible[i])
      && r.surroundings.backupObserved && r.surroundings.blob != BlobUnknown
      && (forall i :: 0 <= i < |r.rows| ==> RowComplete(r.rows[i]))
  {
  }

  // A conversation that was not looked at at all.
  ghost predicate Skipped(row: CohortRow) {
    && Unread(row) && row.classification == Unavailable && row.parentPages == 0 == row.parentRows
    && row.issues == {"layout_not_compatible"}
  }

  // The rows so far, each for its conversation: all read when the layout is
  // compatible, and otherwise all skipped.
  ghost predicate RowsSoFar(rows: seq<CohortRow>, cohort: seq<Pair>, answers: seq<Answers>, layoutOk: bool,
                            storage: Option<string>, at: Spent, spent: Spent)
    requires |answers| == |cohort|
  {
    && RowsFor(rows, cohort)
    && (layoutOk ==> Collected(rows, ObservedAll(answers[..|rows|], cohort[..|rows|], storage, at), spent))
    && (!layoutOk ==> spent == at && forall k :: 0 <= k < |rows| ==> Skipped(rows[k]))
  }

  // The next row.
  method NextRow(rows: seq<CohortRow>, cohort: seq<Pair>, answers: seq<Answers>, layoutOk: bool,
                 storage: Option<string>,
                 budget: Budget, ghost at: Spent) returns (next: seq<CohortRow>)
    requires |answers| == |cohort| && |rows| < |cohort|
    requires RowsSoFar(rows, cohort, answers, layoutOk, storage, at, Spent(budget.calls, budget.received))
    modifies budget
    ensures |next| == |rows| + 1
    ensures RowsSoFar(next, cohort, answers, layoutOk, storage, at, Spent(budget.calls, budget.received))
  {
    var i := |rows|;
    if layoutOk {
      ghost var before := Spent(budget.calls, budget.received);
      var row := AssessPair(answers[i], cohort[i], storage, budget);
      OneMore(rows, row, answers, cohort, storage, at, before, Spent(budget.calls, budget.received));
      next := rows + [row];
    } else {
      next := rows + [EmptyRow(cohort[i]).(issues := {"layout_not_compatible"})];
    }
  }

  // Collects the cohort's rows, reading nothing of it unless the layout is
  // compatible.
  method CollectRows(cohort: seq<Pair>, answers: seq<Answers>, layoutOk: bool, storage: Option<string>, budget: Budget)
    returns (rows: seq<CohortRow>)
    requires |answers| == |cohort|
    modifies budget
    ensures |rows| == |cohort| && RowsFor(rows, cohort)
    ensures layoutOk ==> Collected(rows, ObservedAll(answers, cohort, storage, Spent(old(budget.calls), old(budget.received))),
                                   Spent(budget.calls, budget.received))
    ensures !layoutOk ==> budget.calls == old(budget.calls) && forall k :: 0 <= k < |rows| ==> Skipped(rows[k])
  {
    ghost var at := Spent(budget.calls, budget.received);
    rows := [];
    for i := 0 to |cohort|
      invariant |rows| == i
      invariant RowsSoFar(rows, cohort, answers, layoutOk, storage, at, Spent(budget.calls, budget.received))
    {
      rows := NextRow(rows, cohort, answers, layoutOk, storage, budget, at);
    }
    assert answers[..|cohort|] == answers && cohort[..|cohort|] == cohort;
  }

  // A collected report passes validation, and calls itself complete exactly when
  // its surroundings are known and compatible and every conversation of its
  // cohort was observed.
  method Collect(cohort: seq<Pair>, answers: seq<Answers>, s: Surroundings, storage: Option<string>,
                 started: int, elapsed: nat, budget: Budget, digest: Report -> string)
    returns (r: Report)
    requires |answers| == |cohort| && DistinctPairs(cohort)
    modifies budget
    ensures Validate(r, digest) == Ok(())
    ensures |r.rows| == |cohort| && PairsOf(r.rows) == cohort
    ensures r.complete <==>
      && s.LayoutOk() && s.backupObserved && !s.blob.BlobUnknown?
      && ObservedAll(answers, cohort, storage, Spent(old(budget.calls), old(budget.received))).Some?
  {
    var rows := CollectRows(cohort, answers, s.LayoutOk(), storage, budget);
    assert PairsOf(rows) == cohort;
    r := Report(s, rows, CoverageOf(rows), false, started, started + elapsed, "");
    r := r.(complete := CompleteObservations(r));
    r := r.(seal := SealOf(r, digest));
  }

  // Validation in turn vouches for what is in a report it accepts.  The rows
  // classified in one way are as many as the tally says, and no others.
  lemma {:induction false} TallyMeans(rows: seq<CohortRow>, c: Classification)
    ensures CountRows(rows, (row: CohortRow) => row.classification == c)
         == if c in TallyRows(rows) then TallyRows(rows)[c] else 0
    ensures c in TallyRows(rows) <==> exists row :: row in rows && row.classification == c
  {
    if rows != [] {
      var prefix, last := rows[..|rows|-1], rows[|rows|-1];
      TallyMeans(prefix, c);
      assert rows == prefix + [last];
      if last.classification == c {
        assert last in rows;
      }
    }
  }

  // Everything but the surroundings, the rows and the times follows from them,
  // so an edit of an accepted report that passes is an edit of these; with a
  // seal that tells any two reports apart it cannot keep the seal.
  lemma SealedReportsDiffer(a: Report, b: Report, digest: Report -> string)
    requires Validate(a, digest).Ok? && Validate(b, digest).Ok?
    ensures SameEvidence(a, b) <==> a == b
    ensures (forall x, y :: digest(x) == digest(y) ==> x == y) ==> (a.seal == b.seal <==> SameEvidence(a, b))
  {
    if SameEvidence(a, b) {
      assert CompleteObservations(a) <==> CompleteObservations(b);
      assert a.(seal := "") == b.(seal := "");
    }
    if (forall x, y :: digest(x) == digest(y) ==> x == y) && a.seal == b.seal {
      assert a.(seal := "") == b.(seal := "");
    }
  }

  predicate SameEvidence(a: Report, b: Report) {
    a.surroundings == b.surroundings && a.rows == b.rows && a.startedAt == b.startedAt && a.observedAt == b.observedAt
  }

  lemma {:induction false} CountEvery(rows: seq<CohortRow>, p: CohortRow -> bool, holds: bool)
    requires forall row :: row in rows ==> p(row) == holds
    ensures CountRows(rows, p) == if holds then |rows| else 0
  {
    if rows != [] {
      CountEvery(rows[..|rows|-1], p, holds);
      assert rows[|rows|-1] in rows;
    }
  }

  // An accepted report that calls itself complete counts no row with issues and
  // every row as fully read.
  lemma CompleteCounts(r: Report, digest: Report -> string)
    requires Validate(r, digest).Ok? && r.complete
    ensures r.summary.inventoryComplete == r.summary.declared == |r.rows|
    ensures r.summary.withIssues == 0
    ensures Malformed !in r.summary.classifications && Unavailable !in r.summary.classifications
  {
    CountEvery(r.rows, (row: CohortRow) => row.inventoryComplete, true);
    CountEvery(r.rows, (row: CohortRow) => row.issues != {}, false);
    TallyMeans(r.rows, Malformed);
    TallyMeans(r.rows, Unavailable);
  }
}
