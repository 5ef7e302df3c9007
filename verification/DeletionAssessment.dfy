// Observing every conversation of a declared cohort through a read facade, and
// what a report that calls itself complete may be relied on for.
module DeletionAssessment {
  import opened Wrappers
  import opened DeletionRecords
  import opened DeletionScan
  import opened DeletionVerdict

  // The service's answers to the four scans of one conversation, and the time
  // at which what each returned is judged.
  datatype Answers = Answers(
    initial: seq<Turn<Parent>>, messages: seq<Turn<Child>>, documents: seq<Turn<Child>>, last: seq<Turn<Parent>>,
    atParent: int, atMessages: int, atDocuments: int, atLast: int)

  // What the collection's budget has been used for.
  datatype Spent = Spent(calls: nat, received: nat)

  datatype Got<T> = Got(rows: seq<T>, spent: Spent)

  ghost predicate EndsAt<T(!new)>(turns: seq<Turn<T>>, n: nat, at: Spent) {
    n <= |turns| && PagedToEnd(turns[..n]) && Affordable(turns[..n], at.calls, at.received)
  }

  // The rows of the partition when the answers page to its end within all limits.
  ghost function Reading<T(!new)>(turns: seq<Turn<T>>, at: Spent): Option<Got<T>> {
    if n: nat :| EndsAt(turns, n, at) then
      Some(Got(RowsOf(turns[..n]), Spent(at.calls + n, at.received + BytesOf(turns[..n]))))
    else None
  }

  lemma OnlyTheLastEnds<T(!new)>(turns: seq<Turn<T>>, n: nat, at: Spent)
    requires EndsAt(turns, n, at)
    ensures n >= 1 && turns[n-1].reply.Page? && turns[n-1].reply.next.None?
    ensures forall k :: 0 <= k < n - 1 ==> turns[k].reply.Page? && turns[k].reply.next.Some?
  {
    assert turns[..n][n-1] == turns[n-1];
    assert forall k :: 0 <= k < n - 1 ==> turns[..n][..n-1][k] == turns[k];
  }

  lemma EndsOnce<T(!new)>(turns: seq<Turn<T>>, m: nat, n: nat, at: Spent)
    requires EndsAt(turns, m, at) && EndsAt(turns, n, at)
    ensures m == n
  {
    OnlyTheLastEnds(turns, m, at);
    OnlyTheLastEnds(turns, n, at);
  }

  lemma ScanIsReading<T(!new)>(turns: seq<Turn<T>>, r: Scan<T>, at: Spent, after: Spent)
    requires Reports(r, turns, at.calls, at.received)
    requires r.complete ==> after == Spent(at.calls + r.pages, at.received + BytesOf(turns[..r.pages]))
    ensures ReadsAs(turns, at, r, after)
  {
    if r.complete {
      var n: nat :| n <= |turns| && PagedToEnd(turns[..n]) && Affordable(turns[..n], at.calls, at.received);
      assert EndsAt(turns, n, at);
      SameEnd(turns, n, r.pages, at);
      assert EndsAt(turns, r.pages, at);
      forall k: nat | EndsAt(turns, k, at) ensures k == r.pages {
        EndsOnce(turns, k, r.pages, at);
      }
    } else {
      assert forall k: nat :: !EndsAt(turns, k, at);
    }
  }

  lemma SameEnd<T(!new)>(turns: seq<Turn<T>>, n: nat, m: nat, at: Spent)
    requires EndsAt(turns, n, at) && m <= |turns| && PagedToEnd(turns[..m])
    ensures n == m
  {
    OnlyTheLastEnds(turns, n, at);
    assert turns[..m][m-1] == turns[m-1];
    assert forall k :: 0 <= k < m - 1 ==> turns[..m][..m-1][k] == turns[k];
  }

  ghost predicate ReadsAs<T(!new)>(turns: seq<Turn<T>>, at: Spent, r: Scan<T>, after: Spent) {
    && (r.complete <==> Reading(turns, at).Some?)
    && (r.complete ==> Reading(turns, at).value == Got(r.rows, after) && |r.rows| == r.received)
    && (r.complete ==> after.calls == at.calls + r.pages)
    && (r.complete <==> r.issues == {})
    && |r.rows| <= r.received
    && r.pages <= |turns| && r.received == |RowsOf(turns[..r.pages])|
  }

  // Scans the pages: complete exactly when they page to an end.
  method Scanned<T(!new)>(turns: seq<Turn<T>>, budget: Budget) returns (r: Scan<T>)
    modifies budget
    ensures ReadsAs(turns, Spent(old(budget.calls), old(budget.received)), r, Spent(budget.calls, budget.received))
  {
    ghost var at := Spent(budget.calls, budget.received);
    var asked;
    r, asked := ScanPages(turns, budget);
    ScanIsReading(turns, r, at, Spent(budget.calls, budget.received));
  }

  // ----- What a conversation must look like to count as completely observed

  // What was seen of a conversation.
  datatype Sighting = Sighting(parent: Parent, state: State, messages: seq<Child>, documents: seq<Child>)

  datatype Opening = Opening(parent: Parent, state: State, spent: Spent)

  // Exactly one sound parent in its partition.
  ghost function ParentRead(a: Answers, pair: Pair, at: Spent): Option<Opening> {
    match Reading(a.initial, at)
    case None => None
    case Some(got) =>
      if |got.rows| == 1 && ParentState(got.rows[0], pair, a.atParent).Ok? then
        Some(Opening(got.rows[0], ParentState(got.rows[0], pair, a.atParent).value, got.spent))
      else None
  }

  // A partition of children that is orderly for the parent's state.
  ghost function SurfaceRead(turns: seq<Turn<Child>>, check: Check, state: State, at: Spent): Option<Got<Child>> {
    match Reading(turns, at)
    case None => None
    case Some(got) => if Orderly(got.rows, check, state) then Some(got) else None
  }

  // The same parent again, and still sound.
  ghost function ParentAgain(a: Answers, pair: Pair, parent: Parent, at: Spent): Option<Spent> {
    match Reading(a.last, at)
    case None => None
    case Some(got) => if got.rows == [parent] && ParentState(parent, pair, a.atLast).Ok? then Some(got.spent) else None
  }

  // The observed attachment target is the one required, if any, and no upload is
  // recorded as pending.
  ghost predicate Settled(parent: Parent, storage: Option<string>) {
    && (NeedsTarget(parent) ==> parent.protocol.value.storage == storage)
    && !StillUploading(parent)
  }

  // The conversation as seen when its partitions are read to their ends within
  // the budget, its parent is the same before and after, and parent and children
  // fit one another.
  ghost function Observed(a: Answers, pair: Pair, storage: Option<string>, at: Spent): Option<(Sighting, Spent)> {
    var p :- ParentRead(a, pair, at);
    Followed(a, pair, storage, p)
  }

  ghost function Followed(a: Answers, pair: Pair, storage: Option<string>, p: Opening): Option<(Sighting, Spent)> {
    var m :- SurfaceRead(a.messages, Checker(pair, p.parent, Messages, a.atMessages), p.state, p.spent);
    var d :- SurfaceRead(a.documents, Checker(pair, p.parent, Documents, a.atDocuments), p.state, m.spent);
    var after :- ParentAgain(a, pair, p.parent, d.spent);
    if Settled(p.parent, storage) then Some((Sighting(p.parent, p.state, m.rows, d.rows), after)) else None
  }

  // Some beginning of the answers is a whole partition holding just these rows.
  ghost predicate Held<T(!new)>(turns: seq<Turn<T>>, rows: seq<T>) {
    exists n: nat :: n <= |turns| && PagedToEnd(turns[..n]) && RowsOf(turns[..n]) == rows
  }

  lemma ReadingHeld<T(!new)>(turns: seq<Turn<T>>, at: Spent)
    requires Reading(turns, at).Some?
    ensures Held(turns, Reading(turns, at).value.rows)
  {
  }

  lemma SurfaceHeld(turns: seq<Turn<Child>>, check: Check, state: State, at: Spent)
    requires SurfaceRead(turns, check, state, at).Some?
    ensures var rows := SurfaceRead(turns, check, state, at).value.rows;
      Held(turns, rows) && Orderly(rows, check, state)
  {
    ReadingHeld(turns, at);
  }

  // The only fence among the rows, and open or closed as it must be.
  ghost predicate OnlyFence(rows: seq<Child>, closed: bool) {
    exists i: nat :: FenceAt(rows, i) && rows[i].content.closed == closed
  }

  ghost predicate FenceAt(rows: seq<Child>, i: nat) {
    && i < |rows| && rows[i].content.Fence?
    && forall j :: 0 <= j < |rows| && j != i ==> !rows[j].content.Fence?
  }

  // A surface of a conversation in this state: acceptable rows with identities of
  // their own, no unsettled upload, the fence the state calls for, and beside it
  // nothing where the conversation is only being created or is cleaned up.
  ghost predicate ChildrenFit(rows: seq<Child>, state: State, pair: Pair, parent: Parent, surface: Surface,
                              observed: int) {
    && (forall c :: c in rows ==> Acceptable(c, pair, parent, surface, observed))
    && (forall i, j :: 0 <= i < j < |rows| ==> rows[i].common.id != rows[j].common.id)
    && (forall c :: c in rows ==> c.content.Upload? ==> c.content.settled)
    && (state == Legacy ==> forall c :: c in rows ==> !c.content.Fence?)
    && (state == Active || state == Initial ==> OnlyFence(rows, false))
    && (state == Deleting || state == Verified ==> OnlyFence(rows, true))
    && (state == Initial || state == Verified ==> |rows| == 1)
  }

  lemma {:induction false} FencesInMeans(rows: seq<Child>, closed: bool)
    ensures FencesIn(rows) == [] <==> forall c :: c in rows ==> !c.content.Fence?
    ensures FencesIn(rows) == [closed] <==> OnlyFence(rows, closed)
  {
    if rows != [] {
      var prefix, last := rows[..|rows|-1], rows[|rows|-1];
      FencesInMeans(prefix, closed);
      assert rows == prefix + [last] && last in rows;
      OnlyFenceLast(prefix, last, closed);
      var before, all := FencesIn(prefix), FencesIn(rows);
      if last.content.Fence? {
        assert all == before + [last.content.closed] && all[|before|] == last.content.closed;
        assert all == [closed] <==> before == [] && last.content.closed == closed;
      } else {
        assert all == before;
      }
    }
  }

  lemma OnlyFenceLast(prefix: seq<Child>, last: Child, closed: bool)
    ensures OnlyFence(prefix + [last], closed) <==>
      if last.content.Fence? then (forall c :: c in prefix ==> !c.content.Fence?) && last.content.closed == closed
      else OnlyFence(prefix, closed)
  {
    var rows, n := prefix + [last], |prefix|;
    assert rows[n] == last && forall i :: 0 <= i < n ==> rows[i] == prefix[i] && prefix[i] in prefix;
    if last.content.Fence? {
      if forall c :: c in prefix ==> !c.content.Fence? {
        assert FenceAt(rows, n);
      }
    } else {
      forall i: nat | i < n ensures FenceAt(rows, i) <==> FenceAt(prefix, i) {
      }
    }
  }

  lemma OrderlyMeans(rows: seq<Child>, state: State, pair: Pair, parent: Parent, surface: Surface, observed: int)
    ensures Orderly(rows, Checker(pair, parent, surface, observed), state) <==>
      ChildrenFit(rows, state, pair, parent, surface, observed)
  {
    forall c ensures Checker(pair, parent, surface, observed)(c).Ok? <==> Acceptable(c, pair, parent, surface, observed) {
      CheckChildMeans(c, pair, parent, surface, observed);
    }
    FencesInMeans(rows, true);
    FencesInMeans(rows, false);
    if OnlyFence(rows, true) {
      OneFenceAlone(rows, true);
    }
    if OnlyFence(rows, false) {
      OneFenceAlone(rows, false);
    }
  }

  // Where all rows are fences, the only fence is the only row.
  lemma OneFenceAlone(rows: seq<Child>, closed: bool)
    requires OnlyFence(rows, closed)
    ensures |rows| == 1 <==> forall c :: c in rows ==> c.content.Fence?
  {
    assert forall i :: 0 <= i < |rows| ==> rows[i] in rows;
    if |rows| > 1 {
      assert rows[0] in rows && rows[1] in rows;
    }
  }

  lemma AgainHeld(a: Answers, pair: Pair, parent: Parent, at: Spent)
    requires ParentAgain(a, pair, parent, at).Some?
    ensures Held(a.last, [parent])
  {
    ReadingHeld(a.last, at);
  }

  lemma OpeningHeld(a: Answers, pair: Pair, at: Spent)
    requires ParentRead(a, pair, at).Some?
    ensures var p := ParentRead(a, pair, at).value;
      Held(a.initial, [p.parent]) && ParentState(p.parent, pair, a.atParent) == Ok(p.state)
  {
    ReadingHeld(a.initial, at);
    var rows := Reading(a.initial, at).value.rows;
    assert rows == [rows[0]];
  }

  // Such a sighting rests on records that agree.
  lemma Rests(a: Answers, pair: Pair, storage: Option<string>, at: Spent)
    requires Observed(a, pair, storage, at).Some?
    ensures Witnessed(Observed(a, pair, storage, at).value.0, a, pair, storage)
  {
    OpeningHeld(a, pair, at);
    var p := ParentRead(a, pair, at).value;
    ParentStateMeans(p.parent, pair, a.atParent, p.state);
    FollowedRests(a, pair, storage, ParentRead(a, pair, at).value);
  }

  lemma FollowedRests(a: Answers, pair: Pair, storage: Option<string>, p: Opening)
    requires Followed(a, pair, storage, p).Some?
    requires Held(a.initial, [p.parent]) && StandsIn(p.parent, p.state, pair, a.atParent)
    ensures Witnessed(Followed(a, pair, storage, p).value.0, a, pair, storage)
  {
    var onMessages, onDocuments := Checker(pair, p.parent, Messages, a.atMessages), Checker(pair, p.parent, Documents, a.atDocuments);
    var m := SurfaceRead(a.messages, onMessages, p.state, p.spent).value;
    SurfaceHeld(a.messages, onMessages, p.state, p.spent);
    SurfaceHeld(a.documents, onDocuments, p.state, m.spent);
    var d := SurfaceRead(a.documents, onDocuments, p.state, m.spent).value;
    OrderlyMeans(m.rows, p.state, pair, p.parent, Messages, a.atMessages);
    OrderlyMeans(d.rows, p.state, pair, p.parent, Documents, a.atDocuments);
    AgainHeld(a, pair, p.parent, SurfaceRead(a.documents, onDocuments, p.state, m.spent).value.spent);
  }

  ghost predicate Witnessed(s: Sighting, a: Answers, pair: Pair, storage: Option<string>) {
    && Held(a.initial, [s.parent]) && Held(a.last, [s.parent])
    && Held(a.messages, s.messages) && Held(a.documents, s.documents)
    && StandsIn(s.parent, s.state, pair, a.atParent)
    && ChildrenFit(s.messages, s.state, pair, s.parent, Messages, a.atMessages)
    && ChildrenFit(s.documents, s.state, pair, s.parent, Documents, a.atDocuments)
    && Settled(s.parent, storage)
  }

  // ----- The four reads

  // The row's counts add up, whatever else it says.
  predicate Coherent(row: CohortRow) {
    && row.messages.valid + row.messages.invalid == row.messages.received
    && row.documents.valid + row.documents.invalid == row.documents.received
  }

  // Only a parent without protocol columns is a legacy one.
  lemma LegacyParent(parent: Parent, pair: Pair, observed: int)
    ensures ParentState(parent, pair, observed) == Ok(Legacy) ==> parent.protocol.None?
  {
  }

  // A surface that was not read says nothing.
  ghost predicate Untouched(s: Summary) {
    && !s.read && !s.complete && !s.truncated && s.fence == FenceUnknown
    && s.received == s.valid == s.invalid == s.ordinary == s.settled == s.unresolved == 0
    && s.samples == [] && s.chain == [] && s.issues == {}
  }

  // Nothing but the parent was read.
  ghost predicate Unread(row: CohortRow) {
    && Untouched(row.messages) && Untouched(row.documents) && row.stable == None && !row.inventoryComplete
    && row.binding == BindingUnknown && row.agreement == AgreementUnknown && row.uploads == UploadsUnknown
  }

  // Invalid rows make a conversation malformed, and nothing is read after the
  // surface that has them; without any, children where there may be none do.
  ghost predicate Classified(row: CohortRow, state: State) {
    && (row.messages.invalid > 0 ==> row.classification == Malformed && Untouched(row.documents) && row.stable == None)
    && (row.documents.invalid > 0 ==> row.classification == Malformed && row.stable == None)
    && (row.messages.invalid == 0 && row.documents.invalid == 0 ==>
          row.classification == if (state == Initial || state == Verified) && Occupied(row) then Malformed else Found(state))
  }

  // The parent's partition holds exactly one row, sound or not.
  ghost predicate OneParent(a: Answers, at: Spent) {
    Reading(a.initial, at).Some? && |Reading(a.initial, at).value.rows| == 1
  }

  // A found parent's row may go on as it was read.
  ghost predicate Open(row: CohortRow, pair: Pair, parent: Parent, state: State, storage: Option<string>) {
    && row.pair == pair && row.classification == Found(state) && row.binding == BindingOf(parent, storage)
    && row.uploads.UploadsUnknown? && !row.inventoryComplete && row.stable.None?
    && row.issues == {} && row.parentRows == 1 && row.messages == NotRead() && row.documents == NotRead()
    && (state.Legacy? ==> parent.protocol.None?)
  }

  // Reads the parent: its row so far, and the parent when exactly one sound one
  // was found.
  method ReadParent(a: Answers, pair: Pair, storage: Option<string>, budget: Budget)
    returns (row: CohortRow, found: Option<(Parent, State)>)
    modifies budget
    ensures match ParentRead(a, pair, Spent(old(budget.calls), old(budget.received)))
      case None =>
        && found.None? && row.pair == pair && Coherent(row) && row.issues != {} && Unread(row)
        && row.classification == (if OneParent(a, Spent(old(budget.calls), old(budget.received))) then Malformed else Unavailable)
        && row.parentPages <= |a.initial| && row.parentRows == |RowsOf(a.initial[..row.parentPages])|
      case Some(p) =>
        && found == Some((p.parent, p.state)) && p.spent == Spent(budget.calls, budget.received)
        && Open(row, pair, p.parent, p.state, storage)
        && row.parentPages == p.spent.calls - old(budget.calls)
  {
    var initial := Scanned(a.initial, budget);
    row := EmptyRow(pair).(parentPages := initial.pages, parentRows := initial.received, issues := initial.issues);
    if !initial.complete {
      return row, None;
    }
    if |initial.rows| != 1 {
      return row.(issues := row.issues + {if initial.rows == [] then "parent_not_observed" else "ambiguous_parent"}), None;
    }
    var parent := initial.rows[0];
    match ParentState(parent, pair, a.atParent)
    case Err(code) => return row.(classification := Malformed, issues := row.issues + {code}), None;
    case Ok(state) =>
      LegacyParent(parent, pair, a.atParent);
      return row.(classification := Found(state), binding := BindingOf(parent, storage)), Some((parent, state));
  }

  predicate Fits(s: Summary, state: State) {
    && SurfaceComplete(s) && FencesFit(state, s.fence)
    && (Barren(state) ==> s.ordinary == 0 && s.settled == 0)
  }

  // A summary fits a state that its parent can be in exactly when the partition
  // reads to its end with rows that are orderly for that state.
  ghost predicate Bears(turns: seq<Turn<Child>>, at: Spent, s: Summary, check: Check, legacy: bool) {
    forall state: State :: (state.Legacy? ==> legacy) ==> (Fits(s, state) <==> SurfaceRead(turns, check, state, at).Some?)
  }

  lemma SurfaceBears(turns: seq<Turn<Child>>, at: Spent, after: Spent, scan: Scan<Child>, s: Summary, check: Check,
                     legacy: bool)
    requires ReadsAs(turns, at, scan, after) && Summarises(s, scan, check)
    requires |Fences(Accepted(scan.rows, check))| <= 1
    requires legacy ==> Fences(Accepted(scan.rows, check)) == []
    ensures Bears(turns, at, s, check, legacy)
  {
    forall state: State | state.Legacy? ==> legacy
      ensures Fits(s, state) <==> SurfaceRead(turns, check, state, at).Some?
    {
      if Fits(s, state) {
        SurfaceMeans(s, scan, check, state);
      }
      if SurfaceRead(turns, check, state, at).Some? {
        SurfaceSuffices(s, scan, check, state);
      }
    }
  }

  // No upload ticket is accepted among messages.
  lemma {:induction false} NoTicketsAmongMessages(rows: seq<Child>, pair: Pair, parent: Parent, observed: int)
    ensures Count(Accepted(rows, Checker(pair, parent, Messages, observed)), DeletionRecords.Settled) == 0
  {
    var check := Checker(pair, parent, Messages, observed);
    forall a | a in Accepted(rows, check)
      ensures !DeletionRecords.Settled(a.item)
    {
      InAccepted(rows, check, a);
      assert CheckChild(a.item, pair, parent, Messages, observed).Ok?;
    }
    CountZero(Accepted(rows, check), DeletionRecords.Settled);
  }

  // Reads and summarises one surface.
  method ReadSurface(turns: seq<Turn<Child>>, pair: Pair, parent: Parent, surface: Surface, observed: int,
                     budget: Budget)
    returns (s: Summary)
    modifies budget
    ensures Bears(turns, Spent(old(budget.calls), old(budget.received)), s, Checker(pair, parent, surface, observed),
                  parent.protocol.None?)
    ensures match Reading(turns, Spent(old(budget.calls), old(budget.received)))
      case Some(got) => got.spent == Spent(budget.calls, budget.received)
      case None => true
    ensures s.valid + s.invalid == s.received
    ensures surface.Messages? ==> s.settled == 0
  {
    ghost var at := Spent(budget.calls, budget.received);
    var scan := Scanned(turns, budget);
    s := SummarizeScan(scan, Checker(pair, parent, surface, observed));
    FenceRule(scan.rows, pair, parent, surface, observed);
    NoTicketsAmongMessages(scan.rows, pair, parent, observed);
    SurfaceBears(turns, at, Spent(budget.calls, budget.received), scan, s, Checker(pair, parent, surface, observed),
                 parent.protocol.None?);
  }

  // `next` is `row` after the second parent read.
  ghost predicate Reread(next: CohortRow, row: CohortRow) {
    && next == row.(stable := next.stable, parentPages := next.parentPages, parentRows := next.parentRows, issues := next.issues)
    && row.issues <= next.issues
  }

  // Reads the parent again: whether it is still `parent`, if it was found at all.
  method ReadAgain(a: Answers, pair: Pair, parent: Parent, row: CohortRow, budget: Budget) returns (next: CohortRow)
    requires row.stable.None?
    modifies budget
    ensures Reread(next, row)
    ensures match ParentAgain(a, pair, parent, Spent(old(budget.calls), old(budget.received)))
      case Some(after) =>
        && next.stable == Some(true) && next.issues == row.issues && after == Spent(budget.calls, budget.received)
        && next.parentRows == row.parentRows + 1 && next.parentPages == row.parentPages + (after.calls - old(budget.calls))
      case None => next.stable != Some(true)
    ensures row.parentPages <= next.parentPages <= row.parentPages + |a.last|
    ensures next.parentRows == row.parentRows + |RowsOf(a.last[..next.parentPages-row.parentPages])|
  {
    var last := Scanned(a.last, budget);
    next := row.(parentPages := row.parentPages + last.pages, parentRows := row.parentRows + last.received,
                 issues := row.issues + last.issues);
    if last.complete && |last.rows| == 1 {
      match ParentState(last.rows[0], pair, a.atLast)
      case Err(code) => next := next.(issues := next.issues + {code});
      case Ok(_) =>
        assert last.rows == [last.rows[0]];
        next := next.(stable := Some(last.rows[0] == parent));
    }
  }

  method ConcludeRow(row: CohortRow, parent: Parent, state: State, ghost storage: Option<string>)
    returns (end: CohortRow)
    requires row.classification == Found(state) && row.uploads.UploadsUnknown? && !row.inventoryComplete
    requires row.binding == BindingOf(parent, storage)
    ensures RowComplete(end) <==> Consistent(row, parent, state, storage)
    ensures end.pair == row.pair && end.messages == row.messages && end.documents == row.documents
    ensures end.parentRows == row.parentRows && end.parentPages == row.parentPages
    ensures end.classification == if (state == Initial || state == Verified) && Occupied(row) then Malformed else Found(state)
  {
    ConcludeMeans(row, parent, state, storage);
    UploadsSay(row, parent, state);
    end := Conclude(row, parent, state);
  }

  // The facts of the concluded row are those of the two surfaces, the second
  // parent read and the parent itself.
  lemma Agrees(row: CohortRow, parent: Parent, state: State, storage: Option<string>)
    requires row.messages.settled == 0
    requires row.stable == Some(true) ==> row.issues == row.messages.issues + row.documents.issues
    ensures Consistent(row, parent, state, storage) <==>
      row.stable == Some(true) && Fits(row.messages, state) && Fits(row.documents, state) && Settled(parent, storage)
  {
  }

  // What the row of a conversation says: it is complete exactly when the
  // conversation was observed.
  ghost predicate Concluded(row: CohortRow, pair: Pair, seen: Option<(Sighting, Spent)>, spent: Spent) {
    && row.pair == pair && Coherent(row)
    && (RowComplete(row) <==> seen.Some?)
    && (seen.Some? ==> row.classification == Found(seen.value.0.state) && row.parentRows == 2 && seen.value.1 == spent)
  }

  method AssessFound(a: Answers, pair: Pair, parent: Parent, state: State, row: CohortRow, storage: Option<string>,
                     budget: Budget)
    returns (end: CohortRow)
    requires Open(row, pair, parent, state, storage)
    modifies budget
    ensures Concluded(end, pair, Followed(a, pair, storage, Opening(parent, state, Spent(old(budget.calls), old(budget.received)))),
                      Spent(budget.calls, budget.received))
    ensures Classified(end, state)
  {
    var messages := ReadSurface(a.messages, pair, parent, Messages, a.atMessages, budget);
    end := row.(messages := messages, issues := messages.issues);
    if messages.invalid > 0 {
      assert !Fits(messages, state);
      end := end.(classification := Malformed);
      return;
    }
    var documents := ReadSurface(a.documents, pair, parent, Documents, a.atDocuments, budget);
    end := end.(documents := documents, issues := messages.issues + documents.issues);
    if documents.invalid > 0 {
      assert !Fits(documents, state);
      end := end.(classification := Malformed);
      return;
    }
    end := ReadAgain(a, pair, parent, end, budget);
    Agrees(end, parent, state, storage);
    end := ConcludeRow(end, parent, state, storage);
  }

  // Assesses one conversation.
  method AssessPair(a: Answers, pair: Pair, storage: Option<string>, budget: Budget) returns (row: CohortRow)
    modifies budget
    ensures Concluded(row, pair, Observed(a, pair, storage, Spent(old(budget.calls), old(budget.received))),
                      Spent(budget.calls, budget.received))
    ensures match ParentRead(a, pair, Spent(old(budget.calls), old(budget.received)))
      case Some(p) => Classified(row, p.state)
      case None => Unread(row) && !row.classification.Found? && row.issues != {}
  {
    var found;
    row, found := ReadParent(a, pair, storage, budget);
    if found.Some? {
      row := AssessFound(a, pair, found.value.0, found.value.1, row, storage, budget);
    }
  }
}
