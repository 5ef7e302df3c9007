// The reader of the assessment: it binds the account by a control plane read on
// the same wire, and only then lets the client library read layouts and pages.
module AssessmentReader {
  import opened Wrappers
  import opened DeletionRecords
  import opened DeletionScan
  import opened SdkReads

  // What the library makes of a page in the end: rows, nothing more to come, the
  // transport's empty-page signal passed on, or an error of its own.
  datatype Finish = Rows(rows: seq<Row>) | Exhausted | Signalled | Raised(code: Code)

  // One thing the library tries to send, and what would come of it on the wire.
  datatype Attempt = Attempt(request: Request, response: Response)

  datatype Source = OfRecord(resource: Resource) | OfPlace(place: Place)

  // ----- What the whole log says

  // The reader's own request for a control plane record.
  function RecordRequest(resource: Resource): Request {
    Request(Get, Record(resource), false, false, true, 0, None, None, false, None)
  }

  // An answer that identifies the bound account.
  predicate Binds(e: Entry) {
    && e.accepted && e.request == RecordRequest(Account)
    && e.response.Response? && e.response.content.Some? && e.response.content.value.account.Ok?
  }

  ghost predicate HasBinding(log: seq<Entry>) {
    exists k :: 0 <= k < |log| && Binds(log[k])
  }

  // What may stand in the log at this point: a control plane read, or, once the
  // account is bound, a plain read or the exact query of a pair of the cohort
  // whose container was last read as compatible.
  ghost predicate LawfulAt(e: Entry, before: seq<Entry>, cohort: set<Pair>) {
    || (exists resource :: e.request == RecordRequest(resource))
    || (HasBinding(before) && PlainRead(e.request))
    || (HasBinding(before) && exists q: Query ::
          q.pair in cohort && ExactQuery(e.request, q, e.request.continuation) && LastReading(before, q.place) == Some(true))
  }

  ghost predicate Lawful(log: seq<Entry>, cohort: set<Pair>) {
    forall k :: 0 <= k < |log| ==> LawfulAt(log[k], log[..k], cohort)
  }

  // What a page call may leave on the wire: only allowed requests, at most one
  // of them a query.
  ghost predicate Contained(log: seq<Entry>, mark: nat, q: Query, continuation: Option<string>) {
    mark <= |log| && Disciplined(log, mark, Some(q), continuation) && |PostsIn(log[mark..])| <= 1
  }

  // A query among these entries was answered with this page.
  ghost predicate AnsweredBy(sent: seq<Entry>, page: Selected) {
    PostsIn(sent) != [] && PageOf(PostsIn(sent)[0]) == Some(page)
  }

  lemma BindingStays(log: seq<Entry>, more: seq<Entry>)
    requires log <= more && HasBinding(log)
    ensures HasBinding(more)
  {
    var k :| 0 <= k < |log| && Binds(log[k]);
    assert more[k] == log[k];
  }

  // Requests that the transport allowed are lawful once the account is bound.
  lemma AllowedIsLawful(before: seq<Entry>, log: seq<Entry>, q: Option<Query>, continuation: Option<string>,
                        cohort: set<Pair>)
    requires before <= log && Lawful(before, cohort) && HasBinding(before)
    requires Disciplined(log, |before|, q, continuation)
    requires q.Some? ==> q.value.pair in cohort
    ensures Lawful(log, cohort)
  {
    forall k | 0 <= k < |log|
      ensures LawfulAt(log[k], log[..k], cohort)
    {
      if k < |before| {
        assert log[k] == before[k] && log[..k] == before[..k];
      } else {
        BindingStays(before, log[..k]);
        assert Allowed(log[k].request, log[..k], q, continuation);
      }
    }
  }

  lemma RecordIsLawful(before: seq<Entry>, e: Entry, cohort: set<Pair>)
    requires Lawful(before, cohort) && exists resource :: e.request == RecordRequest(resource)
    ensures Lawful(before + [e], cohort)
    ensures HasBinding(before + [e]) <==> HasBinding(before) || Binds(e)
  {
    var log := before + [e];
    assert log[|before|] == e;
    forall k | 0 <= k < |log|
      ensures LawfulAt(log[k], log[..k], cohort)
    {
      assert log[..k] == if k < |before| then before[..k] else before;
    }
    if HasBinding(before) {
      BindingStays(before, log);
    }
  }

  // An answer that reaches the wire in time and fits what is left of its budgets.
  ghost predicate Arrives(response: Response, room: bool, received: nat) {
    room && response.soon && Fit(response, received)
  }

  // And one that says it is the bound account's.
  ghost predicate Identifies(response: Response, room: bool, received: nat) {
    Arrives(response, room, received) && response.content.Some? && response.content.value.account.Ok?
  }

  class SdkReader {
    const transport: ReadOnlyTransport
    var bound: bool

    // Between calls: nothing is expected, and the log is lawful from its start.
    ghost predicate Valid() reads this, transport, transport.wire {
      && transport.Valid() && transport.expected.None?
      && Lawful(transport.wire.log, transport.cohort)
      && (bound <==> HasBinding(transport.wire.log))
    }

    constructor (wire: Wire, cohort: set<Pair>)
      requires wire.Valid() && wire.log == []
      ensures Valid() && fresh(transport) && transport.wire == wire && transport.cohort == cohort && !bound
    {
      transport := new ReadOnlyTransport(wire, cohort);
      bound := false;
    }

    // Reads a control plane record, on the wire that the library uses too.
    method ReadRecord(resource: Resource, response: Response) returns (r: Result<Body, Code>)
      requires Valid()
      modifies this`bound, transport.wire
      ensures Valid() && transport.layouts == old(transport.layouts)
      ensures Sent(transport.wire.log, old(transport.wire.log), RecordRequest(resource), response)
      ensures old(bound) ==> bound
      ensures r.Ok? ==> transport.wire.log == old(transport.wire.log) + [Entry(RecordRequest(resource), response, true)]
      ensures r.Ok? && resource.Account? && r.value.account.Ok? ==> bound
      ensures old(transport.wire.Room()) && response.soon && Fit(response, old(transport.wire.received)) && response.content.Some? ==>
        r == Ok(response.content.value) && transport.wire.received == old(transport.wire.received) + SizeOf(response.chunks)
    {
      ghost var before := transport.wire.log;
      var raw := transport.wire.Request(RecordRequest(resource), response);
      ghost var e := Entry(RecordRequest(resource), response, raw.Ok?);
      LogGrows(before, e, 0);
      RecordIsLawful(before, e, transport.cohort);
      if raw.Err? {
        return Err(raw.error);
      }
      if raw.value.content.None? {
        return Err("invalid_json");
      }
      r := Ok(raw.value.content.value);
      if resource.Account? && r.value.account.Ok? {
        bound := true;
      }
    }

    // Passes on whatever the library sends, one attempt after the other.
    method Serve(attempts: seq<Attempt>)
      requires transport.Valid()
      modifies transport.wire, transport`posts, transport`observed, transport`layouts
      ensures transport.Valid() && old(transport.wire.log) <= transport.wire.log
      ensures Disciplined(transport.wire.log, |old(transport.wire.log)|, transport.expected, transport.continuation)
      ensures |attempts| == 1 ==> transport.Delivered(attempts[0].request, attempts[0].response)
    {
      for i := 0 to |attempts|
        invariant transport.Valid() && old(transport.wire.log) <= transport.wire.log
        invariant Disciplined(transport.wire.log, |old(transport.wire.log)|, transport.expected, transport.continuation)
        invariant i == 0 ==> unchanged(transport, transport.wire)
        invariant |attempts| == 1 && i == 1 ==> transport.Delivered(attempts[0].request, attempts[0].response)
      {
        ghost var before := transport.wire.log;
        var _ := transport.Send(attempts[i].request, attempts[i].response);
        DisciplineJoins(transport.wire.log, before, |old(transport.wire.log)|, transport.expected, transport.continuation);
      }
    }

    // What is known of one source: the account's and blob records by a read of the
    // reader's own, a container by whatever the library sends and then claims.
    method Metadata(source: Source, response: Response, attempts: seq<Attempt>, claim: Result<bool, Code>)
      returns (r: Result<bool, Code>)
      requires Valid()
      modifies this`bound, transport, transport.wire
      ensures Valid() && old(transport.wire.log) <= transport.wire.log
      ensures PostsIn(transport.wire.log[|old(transport.wire.log)|..]) == []
      ensures source.OfRecord? && source.resource.Account? && r.Ok? ==> bound
      ensures source.OfPlace? && !old(bound) ==> r.Err? && transport.wire.log == old(transport.wire.log)
      ensures source == OfRecord(Account) && Identifies(response, old(transport.wire.Room()), old(transport.wire.received)) ==>
        && r == response.content.value.account
        && transport.wire.log == old(transport.wire.log) + [Entry(RecordRequest(Account), response, true)]
        && transport.wire.received == old(transport.wire.received) + SizeOf(response.chunks)
      ensures source.OfPlace? && old(bound) && |attempts| == 1 ==> transport.Delivered(attempts[0].request, attempts[0].response)
    {
      match source
      case OfRecord(resource) =>
        var content := ReadRecord(resource, response);
        assert RecordRequest(resource).verb.Get?;
        SentPosts(transport.wire.log, old(transport.wire.log), RecordRequest(resource), response);
        return match content
          case Err(code) => Err(code)
          case Ok(body) => if resource.Account? then body.account else claim;
      case OfPlace(_) =>
        if !bound {
          return Err("account_binding_required");
        }
        Serve(attempts);
        Settle(old(transport.wire.log), None, transport.continuation);
        ReadsOnly(transport.wire.log, |old(transport.wire.log)|, transport.continuation);
        return claim;
    }

    // What the transport allowed keeps the log lawful and the binding as it is.
    lemma Settle(before: seq<Entry>, q: Option<Query>, continuation: Option<string>)
      requires before <= transport.wire.log && Lawful(before, transport.cohort) && HasBinding(before)
      requires Disciplined(transport.wire.log, |before|, q, continuation)
      requires q.Some? ==> q.value.pair in transport.cohort
      ensures Lawful(transport.wire.log, transport.cohort) && HasBinding(transport.wire.log)
    {
      AllowedIsLawful(before, transport.wire.log, q, continuation, transport.cohort);
      BindingStays(before, transport.wire.log);
    }

    // The library sends the selected query once, over a layout last read as
    // compatible, its answer comes in time and fits, and it reports that page.
    ghost predicate Plays(q: Query, continuation: Option<string>, attempts: seq<Attempt>, finish: Finish)
      reads this, transport, transport.wire
    {
      && bound && q.pair in transport.cohort && (continuation.Some? ==> GoodCursor(continuation.value))
      && LastReading(transport.wire.log, q.place) == Some(true)
      && |attempts| == 1 && ExactQuery(attempts[0].request, q, continuation)
      && Arrives(attempts[0].response, transport.wire.Room(), transport.wire.received)
      && PageIn(attempts[0].response).Some? && finish == Rows(PageIn(attempts[0].response).value.rows)
    }

    // One page: `attempts` is whatever the library tries to send for it, and
    // `finish` whatever it then claims.  A page that is returned is the answer
    // to the one query that went out; a library that plays by the rules gets its
    // page through.
    method Page(q: Query, continuation: Option<string>, attempts: seq<Attempt>, finish: Finish)
      returns (r: Result<Selected, Code>)
      requires Valid()
      modifies transport, transport.wire
      ensures Valid()
      ensures old(transport.wire.log) <= transport.wire.log
      ensures Contained(transport.wire.log, |old(transport.wire.log)|, q, continuation)
      ensures r.Ok? ==> AnsweredBy(transport.wire.log[|old(transport.wire.log)|..], r.value)
      ensures r.Ok? ==> r.value.rows == (if finish.Rows? then finish.rows else [])
      ensures old(Plays(q, continuation, attempts, finish)) ==> r == Ok(PageIn(attempts[0].response).value)
    {
      if q.pair !in transport.cohort {
        return Err("out_of_scope");
      }
      if continuation.Some? && !GoodCursor(continuation.value) {
        return Err("invalid_continuation");
      }
      if !bound {
        return Err("account_binding_required");
      }
      r := Fetch(q, continuation, attempts, finish);
    }

    // The page call proper, once its query is known to be in scope.
    method Fetch(q: Query, continuation: Option<string>, attempts: seq<Attempt>, finish: Finish)
      returns (r: Result<Selected, Code>)
      requires Valid() && bound && q.pair in transport.cohort
      modifies transport, transport.wire
      ensures Valid() && old(transport.wire.log) <= transport.wire.log
      ensures Contained(transport.wire.log, |old(transport.wire.log)|, q, continuation)
      ensures r.Ok? ==> AnsweredBy(transport.wire.log[|old(transport.wire.log)|..], r.value)
      ensures r.Ok? ==> r.value.rows == (if finish.Rows? then finish.rows else [])
      ensures old(Plays(q, continuation, attempts, finish)) ==> r == Ok(PageIn(attempts[0].response).value)
    {
      Exchange(q, continuation, attempts, finish);
      r := Judge(finish);
      Settle(old(transport.wire.log), Some(q), continuation);
      transport.End();
    }

    // Expects the query and passes on what the library sends.
    method Exchange(q: Query, continuation: Option<string>, attempts: seq<Attempt>, ghost finish: Finish)
      requires Valid()
      modifies transport, transport.wire
      ensures transport.Valid() && transport.mark == |old(transport.wire.log)|
      ensures old(transport.wire.log) <= transport.wire.log
      ensures transport.expected == Some(q) && transport.continuation == continuation
      ensures old(Plays(q, continuation, attempts, finish)) ==>
        transport.posts == 1 && transport.observed == PageIn(attempts[0].response)
    {
      transport.Begin(q, continuation);
      if Plays(q, continuation, attempts, finish) {
        transport.ExactPasses(attempts[0].request, q);
      }
      Serve(attempts);
    }

    method Judge(finish: Finish) returns (r: Result<Selected, Code>)
      requires transport.Valid() && transport.expected.Some?
      ensures r.Ok? ==> transport.posts == 1 && transport.observed == Some(r.value)
      ensures r.Ok? ==> r.value.rows == (if finish.Rows? then finish.rows else [])
      ensures transport.posts == 1 && transport.observed.Some? && finish == Rows(transport.observed.value.rows) ==> r.Ok?
    {
      if finish.Raised? {
        return Err(finish.code);
      }
      var rows := if finish.Rows? then finish.rows else [];
      if transport.posts != 1 || transport.observed.None? {
        return Err("query_not_observed");
      }
      if rows != transport.observed.value.rows {
        return Err("sdk_page_mismatch");
      }
      return Ok(transport.observed.value);
    }
  }

  lemma DisciplineJoins(log: seq<Entry>, middle: seq<Entry>, mark: nat, q: Option<Query>, continuation: Option<string>)
    requires middle <= log && mark <= |middle|
    requires Disciplined(middle, mark, q, continuation) && Disciplined(log, |middle|, q, continuation)
    ensures Disciplined(log, mark, q, continuation)
  {
    forall k | mark <= k < |log|
      ensures Allowed(log[k].request, log[..k], q, continuation)
    {
      if k < |middle| {
        assert log[k] == middle[k] && log[..k] == middle[..k];
      }
    }
  }

  lemma SentPosts(log: seq<Entry>, before: seq<Entry>, r: Request, response: Response)
    requires Sent(log, before, r, response) && r.verb.Get?
    ensures before <= log && PostsIn(log[|before|..]) == []
  {
    assert log == before ==> log[|before|..] == [];
    if log != before {
      var tail := log[|before|..];
      assert tail == [Entry(r, response, true)] || tail == [Entry(r, response, false)];
      assert tail[..0] == [];
    }
  }

  lemma {:induction false} ReadsOnly(log: seq<Entry>, mark: nat, continuation: Option<string>)
    requires mark <= |log| && Disciplined(log, mark, None, continuation)
    ensures PostsIn(log[mark..]) == []
    decreases |log|
  {
    if mark < |log| {
      var prefix := log[..|log|-1];
      assert forall k :: mark <= k < |prefix| ==> prefix[k] == log[k] && prefix[..k] == log[..k];
      ReadsOnly(prefix, mark, continuation);
      assert log[mark..][..|log| - mark - 1] == prefix[mark..];
      assert Allowed(log[|log|-1].request, log[..|log|-1], None, continuation);
    }
  }

  // A page let in is within the page size, counts its rows rightly and leads on,
  // if at all, by a usable cursor; its body fits a page, and the whole log the
  // budgets for calls and bytes.
  lemma {:induction false} PageIsBounded(log: seq<Entry>, received: nat, k: nat)
    requires Budgeted(log, received) && k < |log| && PageOf(log[k]).Some?
    ensures var page, answer := PageOf(log[k]).value, log[k].response;
      && answer.status == 200 && SizeOf(answer.chunks) <= MAX_PAGE_BYTES
      && |page.rows| <= PAGE_ITEMS && answer.content.value.count == Some(|page.rows|)
      && (page.next.Some? ==> GoodCursor(page.next.value))
      && SizeOf(answer.chunks) <= AcceptedBytes(log) <= MAX_TOTAL_BYTES && |log| <= MAX_CALLS
  {
    AcceptedCounts(log, k);
  }

  lemma {:induction false} AcceptedCounts(log: seq<Entry>, k: nat)
    requires k < |log| && log[k].accepted && log[k].response.Response?
    ensures SizeOf(log[k].response.chunks) <= AcceptedBytes(log)
  {
    if k < |log| - 1 {
      AcceptedCounts(log[..|log|-1], k);
    }
  }

  // ----- An earlier layout outlives an answer that is none

  function Answer(layout: Result<bool, Code>): Response {
    Response(true, 200, true, Absent, [], false, Some(Body(Ok(true), true, layout, Some([]), Some(0))), None)
  }

  function LayoutRead(place: Place): Request {
    Request(Get, Container(place), true, true, true, 0, None, None, true, None)
  }

  function QueryRequest(q: Query): Request {
    Request(Post, Docs(q.place), true, true, false, 0, Some(StatementOf(q)), Some([PartitionOf(q)]), true, None)
  }

  method BoundReader(pair: Pair) returns (reader: SdkReader)
    ensures fresh(reader) && fresh(reader.transport) && fresh(reader.transport.wire)
    ensures reader.Valid() && reader.bound && reader.transport.cohort == {pair} && reader.transport.wire.received == 0
    ensures reader.transport.wire.log == [Entry(RecordRequest(Account), Answer(Ok(true)), true)]
  {
    var wire := new Wire();
    reader := new SdkReader(wire, {pair});
    assert Identifies(Answer(Ok(true)), wire.Room(), wire.received);
    var account := reader.Metadata(OfRecord(Account), Answer(Ok(true)), [], Ok(true));
  }

  // One layout read of the session container, answered with `layout`.
  method ReadLayout(reader: SdkReader, layout: Result<bool, Code>)
    requires reader.Valid() && reader.bound && reader.transport.wire.received == 0
    requires |reader.transport.wire.log| < MAX_CALLS
    modifies reader`bound, reader.transport, reader.transport.wire
    ensures reader.Valid() && reader.bound && reader.transport.wire.received == 0
    ensures reader.transport.wire.log == old(reader.transport.wire.log) + [Entry(LayoutRead(Sessions), Answer(layout), true)]
  {
    assert Arrives(Answer(layout), reader.transport.wire.Room(), 0);
    assert reader.transport.Screen(LayoutRead(Sessions)) == Ok(false);
    var claimed := reader.Metadata(OfPlace(Sessions), Answer(layout), [Attempt(LayoutRead(Sessions), Answer(layout))], layout);
    BindingStays(old(reader.transport.wire.log), reader.transport.wire.log);
  }

  // A whole life of a reader: the account is bound, its container is read as
  // compatible, then its layout can no longer be read, and a page is served all
  // the same.
  method StaleLayoutServes(pair: Pair) returns (page: Result<Selected, Code>, reader: SdkReader)
    ensures page == Ok(Selected([], None)) && fresh(reader) && reader.Valid()
    ensures var log := reader.transport.wire.log;
      && |log| >= 3 && log[..3] == StaleLog()
      && ReadingOf(log[2], Sessions) == None && LastReading(log[..3], Sessions) == Some(true)
      && |PostsIn(log[3..])| == 1
  {
    reader := BoundReader(pair);
    ReadLayout(reader, Ok(true));
    ReadLayout(reader, Err("partition_layout_mismatch"));
    ghost var log := reader.transport.wire.log;
    assert log == StaleLog();
    StaleReading();
    var q := Query(Sessions, pair);
    var attempts := [Attempt(QueryRequest(q), Answer(Ok(true)))];
    assert reader.Plays(q, None, attempts, Rows([]));
    page := reader.Page(q, None, attempts, Rows([]));
    assert reader.transport.wire.log[..3] == log;
  }

  function StaleLog(): seq<Entry> {
    [Entry(RecordRequest(Account), Answer(Ok(true)), true),
     Entry(LayoutRead(Sessions), Answer(Ok(true)), true),
     Entry(LayoutRead(Sessions), Answer(Err("partition_layout_mismatch")), true)]
  }

  lemma StaleReading()
    ensures ReadingOf(StaleLog()[2], Sessions) == None && LastReading(StaleLog(), Sessions) == Some(true)
  {
    assert StaleLog()[..2][1] == StaleLog()[1];
  }
}
