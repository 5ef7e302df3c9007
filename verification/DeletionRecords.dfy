// The projected metadata of one conversation: which parent and child records
// are accepted, and the summary of one surface's rows.
module DeletionRecords {
  import opened Wrappers
  import opened SampleSelection

  const MAX_SAMPLES := 8
  const FENCE_ID := "__ai4ia_session_fence_v1__"
  const CHAT_HEAD_ID := "__ai4ia_chat_turn_v1"
  const UPLOAD_PREFIX := "__ai4ia_upload_v1__:"
  const RESERVED := "__ai4ia_"

  type Code = string

  datatype Pair = Pair(owner: string, session: string)

  datatype Surface = Messages | Documents

  // The columns every record carries.  `partition` is the session column of a
  // child, `flaw` what is wrong with the record's shape, if anything, and `rest`
  // everything else that was projected.
  datatype Common = Common(owner: string, partition: string, id: string, flaw: Option<Code>, rest: string)

  datatype ParentKind = Session | Initializing | Tombstone

  datatype CleanupState = Pending | Retryable | CleanupVerified

  // What a tombstone records of its cleanup; `regular` says that its fixed
  // columns have the required values.
  datatype Cleanup = Cleanup(regular: bool, state: CleanupState, phaseComplete: bool, allVerified: bool,
                             pendingUploads: nat, uploadsTruncated: bool, lastVerified: Option<int>)

  datatype Protocol = Protocol(kind: ParentKind, epoch: string, storageRequired: bool, storage: Option<string>,
                               cleanup: Option<Cleanup>)

  datatype Parent = Parent(common: Common, protocol: Option<Protocol>)

  datatype State = Legacy | Active | Initial | Deleting | Verified

  datatype Content =
    | Plain
    | ChatHead
    | Fence(epoch: string, closed: bool)
    | Upload(epoch: string, settled: bool, startedAt: int)

  datatype Child = Child(common: Common, content: Content)

  // `session` is the column that must name the conversation.
  function CheckCommon(c: Common, session: string, pair: Pair): Result<(), Code> {
    if c.owner != pair.owner || session != pair.session then Err("record_owner_or_partition_mismatch")
    else match c.flaw case Some(code) => Err(code) case None => Ok(())
  }

  function ParentState(p: Parent, pair: Pair, observed: int): Result<State, Code> {
    var _ :- CheckCommon(p.common, p.common.id, pair);
    match p.protocol
    case None => Ok(Legacy)
    case Some(protocol) =>
      if protocol.storageRequired && protocol.storage.None? then Err("missing_attachment_target")
      else if protocol.kind.Tombstone? then TombstoneState(protocol.cleanup, observed)
      else if protocol.cleanup.Some? then Err("unexpected_deletion_status")
      else Ok(if protocol.kind.Session? then Active else Initial)
  }

  function TombstoneState(cleanup: Option<Cleanup>, observed: int): Result<State, Code> {
    if cleanup.None? || !cleanup.value.regular then Err("invalid_recorded_cleanup_status")
    else
      var c := cleanup.value;
      if c.pendingUploads > 25 then Err("invalid_numeric_metadata")
      else if c.lastVerified.Some? && c.lastVerified.value > observed then Err("future_verification_timestamp")
      else if !c.state.CleanupVerified? then Ok(Deleting)
      else if c.lastVerified.None? || !c.phaseComplete || !c.allVerified || c.pendingUploads != 0 || c.uploadsTruncated then
        Err("contradictory_recorded_cleanup")
      else Ok(Verified)
  }

  predicate StartsWith(s: string, prefix: string) { prefix <= s }

  function CheckIdentity(s: string): Result<(), Code> {
    if StartsWith(s, RESERVED) then Err("invalid_identity") else Ok(())
  }

  predicate SameGeneration(p: Parent, epoch: string) {
    p.protocol.Some? && p.protocol.value.epoch == epoch
  }

  function CheckChild(c: Child, pair: Pair, parent: Parent, surface: Surface, observed: int): Result<(), Code> {
    var _ :- CheckCommon(c.common, c.common.partition, pair);
    match c.content
    case ChatHead =>
      if !surface.Messages? || c.common.id != CHAT_HEAD_ID then Err("invalid_chat_turn_control") else Ok(())
    case Plain => CheckIdentity(c.common.id)
    case Fence(epoch, closed) =>
      if !SameGeneration(parent, epoch) then Err("child_protocol_or_generation_mismatch")
      else if c.common.id != FENCE_ID then Err("invalid_fence")
      else Ok(())
    case Upload(epoch, settled, startedAt) =>
      if !SameGeneration(parent, epoch) then Err("child_protocol_or_generation_mismatch")
      else CheckUpload(c, parent, surface, observed)
  }

  function CheckUpload(c: Child, parent: Parent, surface: Surface, observed: int): Result<(), Code>
    requires c.content.Upload? && parent.protocol.Some?
  {
    if !surface.Documents? || !StartsWith(c.common.id, UPLOAD_PREFIX) || !parent.protocol.value.storageRequired then
      Err("invalid_upload_ticket")
    else
      var _ :- CheckIdentity(c.common.id[|UPLOAD_PREFIX|..]);
      if c.content.startedAt > observed then Err("invalid_upload_timestamp") else Ok(())
  }

  // ----- What these tests say of a record's columns

  ghost predicate Identified(c: Common, session: string, pair: Pair) {
    c.owner == pair.owner && session == pair.session && c.flaw.None?
  }

  ghost predicate HasTarget(p: Protocol) {
    p.storageRequired ==> p.storage.Some?
  }

  ghost predicate VerifiedCleanup(c: Cleanup, observed: int) {
    && c.state == CleanupVerified && c.phaseComplete && c.allVerified
    && c.lastVerified.Some? && c.lastVerified.value <= observed
    && c.pendingUploads == 0 && !c.uploadsTruncated
  }

  // What a parent's columns must be for the conversation to be in a state.
  ghost predicate StandsIn(p: Parent, state: State, pair: Pair, observed: int) {
    && Identified(p.common, p.common.id, pair)
    && (state == Legacy <==> p.protocol.None?)
    && (p.protocol.Some? ==>
          var protocol := p.protocol.value;
          && HasTarget(protocol)
          && (state == Active <==> protocol.kind == Session)
          && (state == Initial <==> protocol.kind == Initializing)
          && (protocol.kind == Tombstone <==> protocol.cleanup.Some?)
          && (protocol.cleanup.Some? ==>
                var c := protocol.cleanup.value;
                && c.regular && c.pendingUploads <= 25
                && (c.lastVerified.Some? ==> c.lastVerified.value <= observed)
                && (state == Verified <==> c.state == CleanupVerified)
                && (state == Verified ==> VerifiedCleanup(c, observed))))
  }

  lemma ParentStateMeans(p: Parent, pair: Pair, observed: int, state: State)
    ensures ParentState(p, pair, observed) == Ok(state) <==> StandsIn(p, state, pair, observed)
  {
  }

  // An uploaded document's name: the prefix and an identity that is not reserved.
  ghost predicate UploadName(id: string) {
    exists name: string :: id == UPLOAD_PREFIX + name && !(RESERVED <= name)
  }

  // What a child's columns must be beside this parent.
  ghost predicate Acceptable(c: Child, pair: Pair, parent: Parent, surface: Surface, observed: int) {
    && Identified(c.common, c.common.partition, pair)
    && match c.content
       case Plain => !(RESERVED <= c.common.id)
       case ChatHead => surface == Messages && c.common.id == CHAT_HEAD_ID
       case Fence(epoch, _) =>
         c.common.id == FENCE_ID && parent.protocol.Some? && parent.protocol.value.epoch == epoch
       case Upload(epoch, _, startedAt) =>
         && surface == Documents && UploadName(c.common.id) && startedAt <= observed
         && parent.protocol.Some? && parent.protocol.value.epoch == epoch && parent.protocol.value.storageRequired
  }

  lemma CheckChildMeans(c: Child, pair: Pair, parent: Parent, surface: Surface, observed: int)
    ensures CheckChild(c, pair, parent, surface, observed).Ok? <==> Acceptable(c, pair, parent, surface, observed)
  {
    var id := c.common.id;
    if UPLOAD_PREFIX <= id {
      assert id == UPLOAD_PREFIX + id[|UPLOAD_PREFIX|..];
    }
    forall name: string | id == UPLOAD_PREFIX + name
      ensures UPLOAD_PREFIX <= id && id[|UPLOAD_PREFIX|..] == name
    {
    }
  }

  // ----- The rows of one surface

  // The check of a surface's rows against one parent.
  type Check = Child -> Result<(), Code>

  function Checker(pair: Pair, parent: Parent, surface: Surface, observed: int): Check {
    c => CheckChild(c, pair, parent, surface, observed)
  }

  // Fences first, then unsettled uploads, then the rest.
  function Priority(c: Child): nat {
    match c.content
    case Fence(_, _) => 0
    case Upload(_, settled, _) => if settled then 2 else 1
    case _ => 2
  }

  // The rows that pass and whose identity no earlier passing row has, in order.
  function Accepted(rows: seq<Child>, check: Check): (r: seq<Candidate<Child>>)
    ensures |r| <= |rows|
  {
    if rows == [] then []
    else
      var before := Accepted(rows[..|rows|-1], check);
      var c := rows[|rows|-1];
      if check(c).Ok? && !Seen(before, c.common.id) then
        before + [Candidate(Priority(c), |rows| - 1, c)]
      else before
  }

  predicate Seen(accepted: seq<Candidate<Child>>, id: string) {
    exists a :: a in accepted && a.item.common.id == id
  }

  predicate Ordinary(c: Child) { c.content.Plain? || c.content.ChatHead? }

  predicate Unsettled(c: Child) { c.content.Upload? && !c.content.settled }

  predicate Settled(c: Child) { c.content.Upload? && c.content.settled }

  function Count(accepted: seq<Candidate<Child>>, p: Child -> bool): nat {
    if accepted == [] then 0
    else Count(accepted[..|accepted|-1], p) + (if p(accepted[|accepted|-1].item) then 1 else 0)
  }

  lemma {:induction false} CountZero(accepted: seq<Candidate<Child>>, p: Child -> bool)
    ensures Count(accepted, p) == 0 <==> forall a :: a in accepted ==> !p(a.item)
  {
    if accepted != [] {
      CountZero(accepted[..|accepted|-1], p);
      assert accepted == accepted[..|accepted|-1] + [accepted[|accepted|-1]];
    }
  }

  // The `closed` flags of the fences among accepted rows.
  function Fences(accepted: seq<Candidate<Child>>): seq<bool> {
    if accepted == [] then []
    else
      var c := accepted[|accepted|-1].item;
      Fences(accepted[..|accepted|-1]) + (if c.content.Fence? then [c.content.closed] else [])
  }

  datatype FenceState = FenceUnknown | FenceMissing | FenceOpen | FenceClosed

  datatype Summary = Summary(
    read: bool, complete: bool, received: nat, valid: nat, invalid: nat,
    ordinary: nat, settled: nat, unresolved: nat, fence: FenceState,
    samples: seq<Candidate<Child>>, truncated: bool, chain: seq<Candidate<Child>>, issues: set<Code>)

  function NotRead(): Summary {
    Summary(false, false, 0, 0, 0, 0, 0, 0, FenceUnknown, [], false, [], {})
  }

  // What a scan hands over: rows of `received` that arrived whole.
  datatype Scan<T> = Scan(rows: seq<T>, pages: nat, received: nat, complete: bool, issues: set<Code>)

  function FenceOf(fences: seq<bool>, complete: bool): FenceState {
    if |fences| == 1 then (if fences[0] then FenceClosed else FenceOpen)
    else if complete && fences == [] then FenceMissing
    else FenceUnknown
  }

  // Missing is what a complete scan without a fence says, and unknown an
  // incomplete one without, or several.
  lemma FenceOfMeans(fences: seq<bool>, complete: bool)
    ensures FenceOf(fences, complete) == FenceOpen <==> fences == [false]
    ensures FenceOf(fences, complete) == FenceClosed <==> fences == [true]
    ensures FenceOf(fences, complete) == FenceMissing <==> fences == [] && complete
  {
    assert |fences| == 1 ==> fences == [fences[0]];
  }

  // Why a row is not accepted after the rows accepted before it, if it is not.
  function Refusal(before: seq<Candidate<Child>>, c: Child, check: Check): Option<Code> {
    match check(c)
    case Err(code) => Some(code)
    case Ok(_) => if Seen(before, c.common.id) then Some("duplicate_record_identity") else None
  }

  function Refusals(rows: seq<Child>, check: Check): set<Code> {
    if rows == [] then {}
    else
      var prefix := rows[..|rows|-1];
      Refusals(prefix, check)
      + match Refusal(Accepted(prefix, check), rows[|rows|-1], check)
        case Some(code) => {code}
        case None => {}
  }

  ghost predicate Tallied(s: Summary, accepted: seq<Candidate<Child>>) {
    && s.valid == |accepted|
    && s.ordinary == Count(accepted, Ordinary)
    && s.settled == Count(accepted, Settled)
    && s.unresolved == Count(accepted, Unsettled)
    && s.chain == accepted
  }

  // The summary of a scan says of its rows: which are valid, how many of each
  // sort, their fence and, of all valid rows, the first few by priority and
  // position.
  ghost predicate Summarises(s: Summary, scan: Scan<Child>, check: Check) {
    var accepted := Accepted(scan.rows, check);
    && s.read && s.complete == scan.complete && s.received == scan.received
    && s.valid + s.invalid == s.received
    && Tallied(s, accepted)
    && s.fence == FenceOf(Fences(accepted), scan.complete)
    && s.samples == First(MAX_SAMPLES, Arrange(accepted))
    && (s.truncated <==> |accepted| > MAX_SAMPLES)
    && s.issues == scan.issues + Refusals(scan.rows, check)
  }

  // The running totals after some of the rows.
  datatype Running = Running(summary: Summary, seen: set<string>, candidates: seq<Candidate<Child>>, fences: seq<bool>)

  // The running totals agree with the rows accepted so far.
  ghost predicate Follows(r: Running, accepted: seq<Candidate<Child>>) {
    && r.candidates == First(MAX_SAMPLES, Arrange(accepted))
    && r.fences == Fences(accepted)
    && Knows(r.seen, accepted)
    && Tallied(r.summary, accepted)
  }

  ghost predicate Knows(seen: set<string>, accepted: seq<Candidate<Child>>) {
    forall id :: id in seen <==> Seen(accepted, id)
  }

  // Counts an accepted row.
  function Tally(s: Summary, c: Candidate<Child>): Summary {
    var t := s.(valid := s.valid + 1, chain := s.chain + [c]);
    match c.item.content
    case Upload(_, settled, _) => if settled then t.(settled := t.settled + 1) else t.(unresolved := t.unresolved + 1)
    case Fence(_, _) => t
    case _ => t.(ordinary := t.ordinary + 1)
  }

  lemma TallyOne(s: Summary, accepted: seq<Candidate<Child>>, c: Candidate<Child>)
    requires Tallied(s, accepted)
    ensures Tallied(Tally(s, c), accepted + [c])
    ensures Tally(s, c).invalid == s.invalid && Tally(s, c).issues == s.issues
  {
    assert (accepted + [c])[..|accepted|] == accepted;
  }

  function Add(r: Running, c: Candidate<Child>): Running {
    Running(
      Tally(r.summary, c), r.seen + {c.item.common.id},
      First(MAX_SAMPLES, Arrange(r.candidates + [c])),
      if c.item.content.Fence? then r.fences + [c.item.content.closed] else r.fences)
  }

  lemma FencesOne(accepted: seq<Candidate<Child>>, c: Candidate<Child>)
    ensures Fences(accepted + [c]) == Fences(accepted) + (if c.item.content.Fence? then [c.item.content.closed] else [])
  {
    assert (accepted + [c])[..|accepted|] == accepted;
  }

  lemma KnowsMore(seen: set<string>, accepted: seq<Candidate<Child>>, c: Candidate<Child>)
    requires Knows(seen, accepted)
    ensures Knows(seen + {c.item.common.id}, accepted + [c])
  {
    forall id
      ensures Seen(accepted + [c], id) <==> Seen(accepted, id) || id == c.item.common.id
    {
      assert (accepted + [c])[|accepted|] == c;
      if Seen(accepted, id) {
        var a :| a in accepted && a.item.common.id == id;
        assert a in accepted + [c];
      }
    }
  }

  lemma AddFollows(r: Running, accepted: seq<Candidate<Child>>, c: Candidate<Child>)
    requires Follows(r, accepted)
    ensures Follows(Add(r, c), accepted + [c])
  {
    StreamStep(MAX_SAMPLES, accepted, c);
    KnowsMore(r.seen, accepted, c);
    FencesOne(accepted, c);
    TallyOne(r.summary, accepted, c);
  }

  lemma AcceptedStep(rows: seq<Child>, c: Child, check: Check)
    ensures var before := Accepted(rows, check);
      match Refusal(before, c, check)
      case Some(code) => Accepted(rows + [c], check) == before && Refusals(rows + [c], check) == Refusals(rows, check) + {code}
      case None =>
        && Accepted(rows + [c], check) == before + [Candidate(Priority(c), |rows|, c)]
        && Refusals(rows + [c], check) == Refusals(rows, check)
  {
    assert (rows + [c])[..|rows|] == rows;
  }

  function Refuse(seen: set<string>, c: Child, check: Check): Option<Code> {
    match check(c)
    case Err(code) => Some(code)
    case Ok(_) => if c.common.id in seen then Some("duplicate_record_identity") else None
  }

  function Take(r: Running, index: nat, c: Child, check: Check): Running {
    match Refuse(r.seen, c, check)
    case Some(code) => r.(summary := r.summary.(invalid := r.summary.invalid + 1, issues := r.summary.issues + {code}))
    case None => Add(r, Candidate(Priority(c), index, c))
  }

  ghost predicate SoFar(r: Running, rows: seq<Child>, issues: set<Code>, check: Check) {
    && Follows(r, Accepted(rows, check))
    && r.summary.valid + r.summary.invalid == |rows|
    && r.summary.issues == issues + Refusals(rows, check)
  }

  lemma RefuseIsRefusal(r: Running, rows: seq<Child>, c: Child, issues: set<Code>, check: Check)
    requires SoFar(r, rows, issues, check)
    ensures Refuse(r.seen, c, check) == Refusal(Accepted(rows, check), c, check)
  {
  }

  lemma RefusedKeeps(r: Running, rows: seq<Child>, c: Child, issues: set<Code>, check: Check)
    requires SoFar(r, rows, issues, check) && Refuse(r.seen, c, check).Some?
    ensures SoFar(Take(r, |rows|, c, check), rows + [c], issues, check)
  {
    RefuseIsRefusal(r, rows, c, issues, check);
    AcceptedStep(rows, c, check);
  }

  lemma AddedKeeps(r: Running, rows: seq<Child>, c: Child, issues: set<Code>, check: Check)
    requires SoFar(r, rows, issues, check) && Refuse(r.seen, c, check).None?
    ensures SoFar(Take(r, |rows|, c, check), rows + [c], issues, check)
  {
    RefuseIsRefusal(r, rows, c, issues, check);
    AcceptedStep(rows, c, check);
    var candidate := Candidate(Priority(c), |rows|, c);
    AddFollows(r, Accepted(rows, check), candidate);
    TallyOne(r.summary, Accepted(rows, check), candidate);
    assert Take(r, |rows|, c, check) == Add(r, candidate);
  }

  function Start(issues: set<Code>): Running {
    Running(NotRead().(issues := issues), {}, [], [])
  }

  lemma StartSoFar(issues: set<Code>, check: Check)
    ensures SoFar(Start(issues), [], issues, check)
  {
    assert Accepted([], check) == [];
  }

  method TakeRow(r: Running, i: nat, scan: Scan<Child>, check: Check) returns (next: Running)
    requires i < |scan.rows| && SoFar(r, scan.rows[..i], scan.issues, check)
    ensures SoFar(next, scan.rows[..i+1], scan.issues, check)
  {
    var c := scan.rows[i];
    assert scan.rows[..i+1] == scan.rows[..i] + [c];
    if Refuse(r.seen, c, check).Some? {
      RefusedKeeps(r, scan.rows[..i], c, scan.issues, check);
    } else {
      AddedKeeps(r, scan.rows[..i], c, scan.issues, check);
    }
    next := Take(r, i, c, check);
  }

  method SummarizeScan(scan: Scan<Child>, check: Check) returns (s: Summary)
    requires |scan.rows| <= scan.received
    ensures Summarises(s, scan, check)
  {
    var r := Start(scan.issues);
    StartSoFar(scan.issues, check);
    for i := 0 to |scan.rows|
      invariant SoFar(r, scan.rows[..i], scan.issues, check)
    {
      r := TakeRow(r, i, scan, check);
    }
    assert scan.rows[..|scan.rows|] == scan.rows;
    s := Finish(r, scan, check);
  }

  // Rows that never arrived whole are invalid too.
  method Finish(r: Running, scan: Scan<Child>, ghost check: Check) returns (s: Summary)
    requires |scan.rows| <= scan.received
    requires SoFar(r, scan.rows, scan.issues, check)
    ensures Summarises(s, scan, check)
  {
    var t := r.summary;
    s := t.(read := true, complete := scan.complete, received := scan.received,
            invalid := t.invalid + (scan.received - |scan.rows|),
            samples := r.candidates, truncated := t.valid > |r.candidates|,
            fence := FenceOf(r.fences, scan.complete));
  }

  // ----- What an accepted surface tells

  lemma {:induction false} InAccepted(rows: seq<Child>, check: Check, a: Candidate<Child>)
    requires a in Accepted(rows, check)
    ensures a.item in rows && check(a.item).Ok? && a.index < |rows| && rows[a.index] == a.item
    ensures a.priority == Priority(a.item)
  {
    var prefix := rows[..|rows|-1];
    assert rows == prefix + [rows[|rows|-1]];
    if a in Accepted(prefix, check) {
      InAccepted(prefix, check, a);
    }
  }

  // Where a row is left out of the samples, no less telling one is in: with a
  // fence left out all samples are fences, with an unsettled upload fences or
  // such uploads, and of rows that tell as much the earlier ones are in.
  lemma SamplesTellMost(s: Summary, scan: Scan<Child>, check: Check, left: Candidate<Child>, kept: Candidate<Child>)
    requires Summarises(s, scan, check)
    requires left in Accepted(scan.rows, check) && left !in s.samples && kept in s.samples
    ensures |s.samples| == 8 && s.truncated && kept in Accepted(scan.rows, check)
    ensures left.item.content.Fence? ==> kept.item.content.Fence?
    ensures left.item.content.Upload? && !left.item.content.settled ==>
      kept.item.content.Fence? || (kept.item.content.Upload? && !kept.item.content.settled)
    ensures kept.item.content.Fence? && left.item.content.Fence? ==> kept.index <= left.index
    ensures Unsettled(kept.item) && Unsettled(left.item) ==> kept.index <= left.index
    ensures !kept.item.content.Fence? && !Unsettled(kept.item) ==>
      !left.item.content.Fence? && !Unsettled(left.item) && kept.index <= left.index
  {
    var accepted := Accepted(scan.rows, check);
    FirstAreBest(MAX_SAMPLES, accepted, left);
    ArrangePermutes(accepted);
    assert left in multiset(Arrange(accepted));
    assert |accepted| <= MAX_SAMPLES ==> s.samples == Arrange(accepted);
    InAccepted(scan.rows, check, left);
    InAccepted(scan.rows, check, kept);
  }

  ghost predicate DistinctIdentities(accepted: seq<Candidate<Child>>) {
    forall i, j :: 0 <= i < j < |accepted| ==> accepted[i].item.common.id != accepted[j].item.common.id
  }

  // No two accepted rows share an identity.
  lemma {:induction false} AcceptedOnce(rows: seq<Child>, check: Check)
    ensures DistinctIdentities(Accepted(rows, check))
  {
    if rows != [] {
      var before, c := Accepted(rows[..|rows|-1], check), rows[|rows|-1];
      AcceptedOnce(rows[..|rows|-1], check);
      forall i | 0 <= i < |before| && !Seen(before, c.common.id)
        ensures before[i].item.common.id != c.common.id
      {
        assert before[i] in before;
      }
    }
  }

  // Where every fence must carry the one reserved identity there is at most one,
  // and where none passes there is none.
  lemma {:induction false} AtMostOneFence(rows: seq<Child>, check: Check)
    requires forall c :: check(c).Ok? && c.content.Fence? ==> c.common.id == FENCE_ID
    ensures var accepted := Accepted(rows, check);
      && |Fences(accepted)| <= 1
      && (Fences(accepted) != [] ==> Seen(accepted, FENCE_ID))
      && ((forall c :: check(c).Ok? ==> !c.content.Fence?) ==> Fences(accepted) == [])
  {
    if rows != [] {
      var prefix, c := rows[..|rows|-1], rows[|rows|-1];
      AtMostOneFence(prefix, check);
      var before := Accepted(prefix, check);
      if Refusal(before, c, check).None? {
        var more := before + [Candidate(Priority(c), |prefix|, c)];
        assert more[|before|] in more;
        if Seen(before, FENCE_ID) {
          var a :| a in before && a.item.common.id == FENCE_ID;
          assert a in more;
        }
      }
    }
  }

  // A surface read beside a legacy parent has no fence, and any other at most one.
  lemma FenceRule(rows: seq<Child>, pair: Pair, parent: Parent, surface: Surface, observed: int)
    ensures var fences := Fences(Accepted(rows, Checker(pair, parent, surface, observed)));
      |fences| <= 1 && (parent.protocol.None? ==> fences == [])
  {
    AtMostOneFence(rows, Checker(pair, parent, surface, observed));
  }

  // Nothing refused: every row was accepted.
  lemma {:induction false} AllAccepted(rows: seq<Child>, check: Check)
    requires |Accepted(rows, check)| == |rows|
    ensures forall i :: 0 <= i < |rows| ==> Accepted(rows, check)[i].item == rows[i]
  {
    if rows != [] {
      AllAccepted(rows[..|rows|-1], check);
    }
  }
}
