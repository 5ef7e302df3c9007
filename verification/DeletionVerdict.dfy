// What one conversation's observations add up to, and what the verdict that
// they are complete says of the records themselves.
module DeletionVerdict {
  import opened Wrappers
  import opened DeletionRecords

  datatype Classification = Unavailable | Malformed | Found(state: State)

  datatype Agreement = AgreementUnknown | LegacyNoFences | MatchingOpen | MatchingClosed | Conflicting

  datatype Uploads = UploadsUnknown | UploadsUnresolved | NoneObserved

  datatype Binding = BindingUnknown | NotRequired | Matched

  datatype CohortRow = CohortRow(
    pair: Pair, classification: Classification, stable: Option<bool>, inventoryComplete: bool,
    agreement: Agreement, uploads: Uploads, binding: Binding, parentPages: nat, parentRows: nat,
    messages: Summary, documents: Summary, issues: set<Code>)

  function EmptyRow(pair: Pair): CohortRow {
    CohortRow(pair, Unavailable, None, false, AgreementUnknown, UploadsUnknown, BindingUnknown, 0, 0, NotRead(), NotRead(), {})
  }

  function BindingOf(p: Parent, storage: Option<string>): Binding {
    match p.protocol
    case None => BindingUnknown
    case Some(protocol) =>
      if !protocol.storageRequired then NotRequired
      else if protocol.storage == storage then Matched
      else BindingUnknown
  }

  // ----- The conclusion, once both surfaces and the second parent read are in

  function AgreementOf(state: State, complete: bool, messages: FenceState, documents: FenceState): Agreement {
    if state.Legacy? then
      if complete && messages.FenceMissing? && documents.FenceMissing? then LegacyNoFences else AgreementUnknown
    else if messages.FenceOpen? && documents.FenceOpen? && (state.Active? || state.Initial?) then MatchingOpen
    else if messages.FenceClosed? && documents.FenceClosed? && (state.Deleting? || state.Verified?) then MatchingClosed
    else Conflicting
  }

  predicate HasChildren(row: CohortRow) {
    row.messages.ordinary > 0 || row.documents.ordinary > 0 || row.documents.settled > 0 || row.documents.unresolved > 0
  }

  predicate RecordedUploads(p: Parent) {
    p.protocol.Some? && p.protocol.value.cleanup.Some?
    && (p.protocol.value.cleanup.value.pendingUploads > 0 || p.protocol.value.cleanup.value.uploadsTruncated)
  }

  function WithStability(row: CohortRow): CohortRow {
    var complete := row.stable == Some(true) && row.messages.complete && row.documents.complete;
    row.(inventoryComplete := complete,
         issues := row.issues + (if row.stable != Some(true) then {"parent_changed_or_unavailable"} else {}))
  }

  function WithFences(row: CohortRow, state: State): CohortRow {
    var agreement := AgreementOf(state, row.inventoryComplete, row.messages.fence, row.documents.fence);
    row.(agreement := agreement,
         issues := row.issues + (if agreement.Conflicting? then {"fences_incomplete_or_conflicting"} else {}))
  }

  function WithUploads(row: CohortRow): CohortRow {
    if row.documents.unresolved > 0 then
      row.(uploads := UploadsUnresolved, issues := row.issues + {"uploads_unresolved"})
    else if row.inventoryComplete then row.(uploads := NoneObserved)
    else row
  }

  function WithChildren(row: CohortRow, state: State): CohortRow {
    if state.Verified? && HasChildren(row) then
      row.(classification := Malformed, issues := row.issues + {"recorded_cleanup_conflicts_with_children"})
    else if state.Initial? && HasChildren(row) then
      row.(classification := Malformed, issues := row.issues + {"initialization_has_persisted_children"})
    else row
  }

  function WithParent(row: CohortRow, parent: Parent): CohortRow {
    var required := parent.protocol.Some? && parent.protocol.value.storageRequired;
    var bound := row.(issues := row.issues
      + (if required && !row.binding.Matched? then {"attachment_target_not_observed"} else {}));
    if RecordedUploads(parent) then
      bound.(uploads := UploadsUnresolved, issues := bound.issues + {"recorded_uploads_unresolved"})
    else bound
  }

  function Conclude(row: CohortRow, parent: Parent, state: State): CohortRow {
    WithParent(WithChildren(WithUploads(WithFences(WithStability(row), state)), state), parent)
  }

  predicate SurfaceComplete(s: Summary) {
    s.complete && s.issues == {} && s.invalid == 0 && s.unresolved == 0
  }

  // The test a report makes of every row before it calls itself complete.
  predicate RowComplete(row: CohortRow) {
    && row.inventoryComplete && row.issues == {}
    && row.classification.Found?
    && row.stable == Some(true)
    && !row.uploads.UploadsUnresolved?
    && SurfaceComplete(row.messages) && SurfaceComplete(row.documents)
  }

  lemma RowCompleteMeans(row: CohortRow)
    ensures RowComplete(row) <==>
      && row.inventoryComplete && row.issues == {} && row.stable == Some(true)
      && row.classification != Unavailable && row.classification != Malformed && row.uploads != UploadsUnresolved
      && row.messages.complete && row.messages.issues == {} && row.messages.invalid == 0 == row.messages.unresolved
      && row.documents.complete && row.documents.issues == {} && row.documents.invalid == 0 == row.documents.unresolved
  {
  }

  // The facts such a row must rest on, in terms of its summaries.
  ghost predicate Consistent(row: CohortRow, parent: Parent, state: State, storage: Option<string>) {
    && row.stable == Some(true) && row.issues == {}
    && SurfaceComplete(row.messages) && SurfaceComplete(row.documents)
    && FencesFit(state, row.messages.fence) && FencesFit(state, row.documents.fence)
    && (Barren(state) ==> !HasChildren(row))
    && (parent.protocol.Some? && parent.protocol.value.storageRequired ==> parent.protocol.value.storage == storage)
    && !RecordedUploads(parent)
  }

  // The fence a surface must show; a legacy surface may also show what this
  // function does not look at, because no fence can be accepted there.
  predicate FencesFit(state: State, fence: FenceState) {
    match state
    case Legacy => true
    case Active => fence.FenceOpen?
    case Initial => fence.FenceOpen?
    case Deleting => fence.FenceClosed?
    case Verified => fence.FenceClosed?
  }

  lemma ParentStep(row: CohortRow, parent: Parent)
    ensures RowComplete(WithParent(row, parent)) <==>
      && RowComplete(row) && !RecordedUploads(parent)
      && (parent.protocol.Some? && parent.protocol.value.storageRequired ==> row.binding.Matched?)
  {
  }

  // The conclusion is complete exactly on those facts.
  lemma {:induction false} ConcludeMeans(row: CohortRow, parent: Parent, state: State, storage: Option<string>)
    requires row.classification == Found(state) && row.uploads.UploadsUnknown? && !row.inventoryComplete
    requires row.binding == BindingOf(parent, storage)
    ensures RowComplete(Conclude(row, parent, state)) <==> Consistent(row, parent, state, storage)
  {
    ParentStep(WithChildren(WithUploads(WithFences(WithStability(row), state)), state), parent);
  }

  // The tombstone still records uploads, or more than it could list.
  ghost predicate StillUploading(p: Parent) {
    p.protocol.Some? && p.protocol.value.cleanup.Some?
    && !(p.protocol.value.cleanup.value.pendingUploads == 0 && !p.protocol.value.cleanup.value.uploadsTruncated)
  }

  ghost predicate NeedsTarget(p: Parent) { p.protocol.Some? && p.protocol.value.storageRequired }

  // Some row that is no fence was accepted.
  ghost predicate Occupied(row: CohortRow) {
    row.messages.ordinary + row.documents.ordinary + row.documents.settled + row.documents.unresolved > 0
  }

  ghost predicate Whole(row: CohortRow) {
    row.stable == Some(true) && row.messages.complete && row.documents.complete
  }

  ghost function Rest(row: CohortRow, parent: Parent, state: State): CohortRow {
    WithParent(WithChildren(WithUploads(row), state), parent)
  }

  lemma RestKeeps(row: CohortRow, parent: Parent, state: State)
    ensures Rest(row, parent, state).agreement == row.agreement
    ensures Rest(row, parent, state).inventoryComplete == row.inventoryComplete
  {
  }

  lemma FencesSay(row: CohortRow, state: State)
    ensures var end := WithFences(WithStability(row), state);
      && (end.inventoryComplete <==> Whole(row))
      && (end.agreement == LegacyNoFences <==>
            state == Legacy && Whole(row) && row.messages.fence == FenceMissing && row.documents.fence == FenceMissing)
      && (end.agreement == MatchingOpen <==>
            (state == Active || state == Initial) && row.messages.fence == FenceOpen && row.documents.fence == FenceOpen)
      && (end.agreement == MatchingClosed <==>
            (state == Deleting || state == Verified) && row.messages.fence == FenceClosed && row.documents.fence == FenceClosed)
      && (end.agreement == AgreementUnknown ==> state == Legacy)
  {
  }

  // What is concluded of the fences.
  lemma AgreementSays(row: CohortRow, parent: Parent, state: State)
    ensures var end := Conclude(row, parent, state);
      && (end.inventoryComplete <==> Whole(row))
      && (end.agreement == LegacyNoFences <==>
            state == Legacy && Whole(row) && row.messages.fence == FenceMissing && row.documents.fence == FenceMissing)
      && (end.agreement == MatchingOpen <==>
            (state == Active || state == Initial) && row.messages.fence == FenceOpen && row.documents.fence == FenceOpen)
      && (end.agreement == MatchingClosed <==>
            (state == Deleting || state == Verified) && row.messages.fence == FenceClosed && row.documents.fence == FenceClosed)
      && (end.agreement == AgreementUnknown ==> state == Legacy)
  {
    FencesSay(row, state);
    RestKeeps(WithFences(WithStability(row), state), parent, state);
  }

  // What is concluded of the uploads and the children.
  lemma UploadsSay(row: CohortRow, parent: Parent, state: State)
    requires row.classification == Found(state) && row.uploads.UploadsUnknown?
    ensures var end := Conclude(row, parent, state);
      && (end.uploads == UploadsUnresolved <==> row.documents.unresolved > 0 || StillUploading(parent))
      && (end.uploads == NoneObserved <==> Whole(row) && row.documents.unresolved == 0 && !StillUploading(parent))
      && (end.classification == Malformed <==> (state == Initial || state == Verified) && Occupied(row))
  {
  }

  // The issues concluded, one for each thing that is wrong.
  ghost function WrongFences(row: CohortRow, agreement: Agreement): set<Code> {
    (if row.stable != Some(true) then {"parent_changed_or_unavailable"} else {})
    + (if agreement == Conflicting then {"fences_incomplete_or_conflicting"} else {})
  }

  ghost function WrongChildren(row: CohortRow, state: State): set<Code> {
    (if row.documents.unresolved > 0 then {"uploads_unresolved"} else {})
    + (if state == Verified && Occupied(row) then {"recorded_cleanup_conflicts_with_children"} else {})
    + (if state == Initial && Occupied(row) then {"initialization_has_persisted_children"} else {})
  }

  ghost function WrongParent(row: CohortRow, parent: Parent): set<Code> {
    (if NeedsTarget(parent) && row.binding != Matched then {"attachment_target_not_observed"} else {})
    + (if StillUploading(parent) then {"recorded_uploads_unresolved"} else {})
  }

  lemma IssuesSay(row: CohortRow, parent: Parent, state: State)
    ensures var end := Conclude(row, parent, state);
      end.issues == row.issues + WrongFences(row, end.agreement) + WrongChildren(row, state) + WrongParent(row, parent)
  {
    FencesIssues(row, state);
    IssuesFrom(row, WithFences(WithStability(row), state), parent, state);
  }

  // Only what is concluded changes.
  ghost predicate SameReads(a: CohortRow, b: CohortRow) {
    a.messages == b.messages && a.documents == b.documents && a.binding == b.binding
  }

  lemma FencesIssues(row: CohortRow, state: State)
    ensures var a := WithFences(WithStability(row), state);
      a.issues == row.issues + WrongFences(row, a.agreement) && SameReads(a, row)
  {
  }

  lemma IssuesFrom(row: CohortRow, a: CohortRow, parent: Parent, state: State)
    requires a.issues == row.issues + WrongFences(row, a.agreement) && SameReads(a, row)
    ensures var end := Rest(a, parent, state);
      end.issues == row.issues + WrongFences(row, end.agreement) + WrongChildren(row, state) + WrongParent(row, parent)
  {
    RestKeeps(a, parent, state);
    RestIssues(a, parent, state);
  }

  lemma RestIssues(row: CohortRow, parent: Parent, state: State)
    ensures Rest(row, parent, state).issues == row.issues + WrongChildren(row, state) + WrongParent(row, parent)
  {
    ChildrenIssues(row, state);
    ParentIssues(WithChildren(WithUploads(row), state), parent);
  }

  lemma ChildrenIssues(row: CohortRow, state: State)
    ensures var end := WithChildren(WithUploads(row), state);
      end.issues == row.issues + WrongChildren(row, state) && end.binding == row.binding
  {
  }

  lemma ParentIssues(row: CohortRow, parent: Parent)
    ensures WithParent(row, parent).issues == row.issues + WrongParent(row, parent)
  {
  }

  // The attachment target is matched when one is required and is the observed
  // one, and not required when it is not.
  lemma BindingSays(p: Parent, storage: Option<string>)
    ensures BindingOf(p, storage) == Matched <==> NeedsTarget(p) && p.protocol.value.storage == storage
    ensures BindingOf(p, storage) == NotRequired <==> p.protocol.Some? && !p.protocol.value.storageRequired
  {
  }

  // ----- What that says of the records

  // The `closed` flags of the fences among the rows themselves.
  function FencesIn(rows: seq<Child>): seq<bool> {
    if rows == [] then []
    else
      var c := rows[|rows|-1];
      FencesIn(rows[..|rows|-1]) + (if c.content.Fence? then [c.content.closed] else [])
  }

  ghost predicate Unique(rows: seq<Child>) {
    forall i, j :: 0 <= i < j < |rows| ==> rows[i].common.id != rows[j].common.id
  }

  function FencesFor(state: State): seq<bool> {
    match state
    case Legacy => []
    case Active => [false]
    case Initial => [false]
    case Deleting => [true]
    case Verified => [true]
  }

  // The states in which a conversation may have no children at all.
  predicate Barren(state: State) { state.Verified? || state.Initial? }

  // Every row of a surface passes, no two share an identity, and the fence is
  // the one the state calls for.
  ghost predicate Orderly(rows: seq<Child>, check: Check, state: State) {
    && (forall c :: c in rows ==> check(c).Ok?)
    && Unique(rows)
    && FencesIn(rows) == FencesFor(state)
    && (forall c :: c in rows ==> !Unsettled(c))
    && (Barren(state) ==> forall c :: c in rows ==> c.content.Fence?)
  }

  lemma {:induction false} FencesOfAccepted(rows: seq<Child>, check: Check)
    requires |Accepted(rows, check)| == |rows|
    ensures Fences(Accepted(rows, check)) == FencesIn(rows)
  {
    if rows != [] {
      var prefix, c := rows[..|rows|-1], rows[|rows|-1];
      FencesOfAccepted(prefix, check);
    }
  }

  // Where nothing was invalid, the accepted rows are the rows.
  lemma AcceptedAll(rows: seq<Child>, check: Check)
    requires |Accepted(rows, check)| == |rows|
    ensures Unique(rows)
    ensures forall c :: c in rows ==> check(c).Ok? && exists a :: a in Accepted(rows, check) && a.item == c
  {
    AllAccepted(rows, check);
    AcceptedOnce(rows, check);
    var accepted := Accepted(rows, check);
    assert forall i :: 0 <= i < |rows| ==> accepted[i].item == rows[i];
    forall c | c in rows
      ensures check(c).Ok? && exists a :: a in accepted && a.item == c
    {
      var i :| 0 <= i < |rows| && rows[i] == c;
      assert accepted[i] in accepted;
      InAccepted(rows, check, accepted[i]);
    }
  }

  lemma RowsAreNot(rows: seq<Child>, check: Check, p: Child -> bool)
    requires |Accepted(rows, check)| == |rows|
    requires Count(Accepted(rows, check), p) == 0
    ensures forall c :: c in rows ==> !p(c)
  {
    AcceptedAll(rows, check);
    CountZero(Accepted(rows, check), p);
  }

  // Rows that all pass under identities of their own are all accepted.
  lemma {:induction false} AcceptsAll(rows: seq<Child>, check: Check)
    requires Unique(rows) && forall c :: c in rows ==> check(c).Ok?
    ensures |Accepted(rows, check)| == |rows| && Refusals(rows, check) == {}
  {
    if rows != [] {
      var prefix, c := rows[..|rows|-1], rows[|rows|-1];
      AcceptsAll(prefix, check);
      var before := Accepted(prefix, check);
      forall a | a in before
        ensures a.item.common.id != c.common.id
      {
        InAccepted(prefix, check, a);
        assert rows[a.index] == prefix[a.index];
      }
    }
  }

  lemma NoneCounted(rows: seq<Child>, check: Check, p: Child -> bool)
    requires forall c :: c in rows ==> !p(c)
    ensures Count(Accepted(rows, check), p) == 0
  {
    forall a | a in Accepted(rows, check)
      ensures !p(a.item)
    {
      InAccepted(rows, check, a);
    }
    CountZero(Accepted(rows, check), p);
  }

  // A surface is complete, with the fence and the children its state allows,
  // exactly when its scan ended and its rows are orderly.
  lemma SurfaceMeans(s: Summary, scan: Scan<Child>, check: Check, state: State)
    requires |scan.rows| <= scan.received
    requires Summarises(s, scan, check)
    requires SurfaceComplete(s) && FencesFit(state, s.fence)
    requires |Fences(Accepted(scan.rows, check))| <= 1
    requires state.Legacy? ==> Fences(Accepted(scan.rows, check)) == []
    requires Barren(state) ==> s.ordinary == 0 && s.settled == 0
    ensures scan.complete && Orderly(scan.rows, check, state)
  {
    var rows := scan.rows;
    assert |Accepted(rows, check)| == |rows|;
    AcceptedAll(rows, check);
    FencesOfAccepted(rows, check);
    FenceFits(FencesIn(rows), scan.complete, state);
    RowsAreNot(rows, check, Unsettled);
    if Barren(state) {
      RowsAreNot(rows, check, Ordinary);
      RowsAreNot(rows, check, Settled);
    }
  }

  lemma SurfaceSuffices(s: Summary, scan: Scan<Child>, check: Check, state: State)
    requires |scan.rows| == scan.received && scan.complete && scan.issues == {}
    requires Summarises(s, scan, check)
    requires Orderly(scan.rows, check, state)
    ensures SurfaceComplete(s) && FencesFit(state, s.fence)
    ensures Barren(state) ==> s.ordinary == 0 && s.settled == 0
  {
    var rows := scan.rows;
    AcceptsAll(rows, check);
    FencesOfAccepted(rows, check);
    assert FencesFit(state, FenceOf(FencesFor(state), true));
    NoneCounted(rows, check, Unsettled);
    if Barren(state) {
      NoneCounted(rows, check, Ordinary);
      NoneCounted(rows, check, Settled);
    }
  }

  lemma FenceFits(fences: seq<bool>, complete: bool, state: State)
    requires |fences| <= 1 && (state.Legacy? ==> fences == [])
    requires FencesFit(state, FenceOf(fences, complete))
    ensures fences == FencesFor(state)
  {
  }
}
