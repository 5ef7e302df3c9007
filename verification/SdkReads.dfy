// Reading pages through a client library that is not trusted: whatever it tries
// to send, at most one query reaches the wire for each page, and it is the
// query that was asked for.
module SdkReads {
  import opened Wrappers
  import opened DeletionRecords
  import opened DeletionScan

  datatype Place = Sessions | Children(surface: Surface)

  datatype Query = Query(place: Place, pair: Pair)

  // The statement and parameters a request body carries.
  datatype Statement = SelectParent(id: string, owner: string) | SelectChildren(session: string) | Another(text: string)

  function StatementOf(q: Query): Statement {
    if q.place.Sessions? then SelectParent(q.pair.session, q.pair.owner) else SelectChildren(q.pair.session)
  }

  function PartitionOf(q: Query): string {
    if q.place.Sessions? then q.pair.owner else q.pair.session
  }

  datatype Verb = Get | Post | Mutation

  datatype Resource = Account | BlobService | BlobContainer

  // Where a request goes: places of the data plane, or a resource's record in
  // the control plane.
  datatype Path = Root | Container(place: Place) | Docs(place: Place) | Record(resource: Resource) | Elsewhere

  // A request as the library hands it over.  `endpoint` says that it goes to the
  // bound account over https and nothing else, `version` that it names the pinned
  // data API, and `options` that its query options are the plain ones.
  datatype Request = Request(
    verb: Verb, path: Path, endpoint: bool, version: bool, empty: bool, size: nat, statement: Option<Statement>,
    partition: Option<seq<string>>, options: bool, continuation: Option<string>)

  type Row = string

  datatype Selected = Selected(rows: seq<Row>, next: Option<string>)

  // What a response body says, read as each kind of answer: the account's record
  // (whether its layout is compatible, if it is the bound account at all), its
  // write layout, a container's layout, or a page.
  datatype Body = Body(
    account: Result<bool, Code>, soleWriter: bool, layout: Result<bool, Code>, documents: Option<seq<Row>>, count: Option<int>)

  datatype Length = Absent | Unreadable | Declared(n: nat)

  datatype Chunk = Chunk(size: nat, late: bool)

  // What the world does with a request that reaches it; `soon` and `late` say
  // whether the collection's deadline is still ahead before, and has passed after.
  datatype Response =
    | Broken(soon: bool, code: Code)
    | Response(soon: bool, status: nat, plain: bool, length: Length, chunks: seq<Chunk>, late: bool,
               content: Option<Body>, token: Option<string>)

  // A request that reached the wire, and whether its answer was let back in.
  datatype Entry = Entry(request: Request, response: Response, accepted: bool)

  function SizeOf(chunks: seq<Chunk>): nat {
    if chunks == [] then 0 else SizeOf(chunks[..|chunks|-1]) + chunks[|chunks|-1].size
  }

  lemma {:induction false} SizeGrows(chunks: seq<Chunk>, i: nat)
    requires i <= |chunks|
    ensures SizeOf(chunks[..i]) <= SizeOf(chunks)
  {
    if i == |chunks| {
      assert chunks[..i] == chunks;
    } else {
      SizeGrows(chunks[..|chunks|-1], i);
      assert chunks[..|chunks|-1][..i] == chunks[..i];
    }
  }

  // An answer fit to be let in, with `received` bytes taken so far.
  ghost predicate Fit(r: Response, received: nat) {
    && r.Response? && r.status == 200 && r.plain && !r.length.Unreadable?
    && (r.length.Declared? ==> r.length.n <= MAX_PAGE_BYTES && r.length.n + received <= MAX_TOTAL_BYTES)
    && SizeOf(r.chunks) <= MAX_PAGE_BYTES && received + SizeOf(r.chunks) <= MAX_TOTAL_BYTES
    && (forall i :: 0 <= i < |r.chunks| ==> !r.chunks[i].late) && !r.late
  }

  function AcceptedBytes(log: seq<Entry>): nat {
    if log == [] then 0
    else
      var e := log[|log|-1];
      AcceptedBytes(log[..|log|-1]) + if e.accepted && e.response.Response? then SizeOf(e.response.chunks) else 0
  }

  // All answers let in are sound, small enough and together within the budget.
  ghost predicate Budgeted(log: seq<Entry>, received: nat) {
    && |log| <= MAX_CALLS
    && AcceptedBytes(log) <= received && AcceptedBytes(log) <= MAX_TOTAL_BYTES
    && forall k :: 0 <= k < |log| && log[k].accepted ==> Fit(log[k].response, 0)
  }

  class Wire {
    var calls: nat
    var received: nat
    ghost var log: seq<Entry>

    ghost predicate Valid() reads this { calls == |log| && Budgeted(log, received) }

    constructor ()
      ensures Valid() && log == [] && received == 0
    {
      calls, received, log := 0, 0, [];
    }

    // The budgets have something left.
    predicate Room() reads this { received < MAX_TOTAL_BYTES && calls < MAX_CALLS }

    // Sends a request if the budgets allow it, and lets its answer in exactly
    // when that fits them too.
    method Request(request: Request, response: Response) returns (r: Result<Response, Code>)
      requires Valid()
      modifies this
      ensures Valid()
      ensures var sent := old(Room()) && response.soon;
        && log == (if sent then old(log) + [Entry(request, response, r.Ok?)] else old(log))
        && (r.Ok? <==> sent && Fit(response, old(received)))
      ensures r.Ok? ==> r.value == response && received == old(received) + SizeOf(response.chunks) <= MAX_TOTAL_BYTES
    {
      if received >= MAX_TOTAL_BYTES {
        return Err("response_byte_limit");
      }
      if calls >= MAX_CALLS {
        return Err("transport_call_limit");
      }
      if !response.soon {
        return Err("collection_timeout");
      }
      calls := calls + 1;
      var code := Receive(response);
      r := if code.None? then Ok(response) else Err(code.value);
      log := log + [Entry(request, response, r.Ok?)];
    }

    // Takes in a response chunk by chunk; nothing is wrong exactly when it fits.
    method Receive(response: Response) returns (wrong: Option<Code>)
      requires received < MAX_TOTAL_BYTES
      modifies this`received
      ensures wrong.None? <==> Fit(response, old(received))
      ensures wrong.None? ==> received == old(received) + SizeOf(response.chunks)
      ensures response.Broken? ==> wrong == Some(response.code)
      ensures response.Response? && response.status == 404 ==> wrong == Some("source_not_found")
      ensures response.Response? && response.status != 404 && response.status != 200 ==> wrong == Some("source_read_failed")
      ensures received >= old(received)
    {
      match response
      case Broken(_, code) => return Some(code);
      case Response(_, status, plain, length, chunks, late, _, _) =>
        if status != 200 {
          return Some(if status == 404 then "source_not_found" else "source_read_failed");
        }
        if !plain {
          return Some("encoded_response_refused");
        }
        if length.Unreadable? || (length.Declared? && (length.n > MAX_PAGE_BYTES || length.n + received > MAX_TOTAL_BYTES)) {
          return Some("response_byte_limit");
        }
        var size: nat := 0;
        for i := 0 to |chunks|
          invariant size == SizeOf(chunks[..i]) <= MAX_PAGE_BYTES
          invariant received == old(received) + size
          invariant received <= MAX_TOTAL_BYTES
          invariant forall k :: 0 <= k < i ==> !chunks[k].late
        {
          assert chunks[..i+1][..i] == chunks[..i];
          SizeGrows(chunks, i + 1);
          size, received := size + chunks[i].size, received + chunks[i].size;
          if size > MAX_PAGE_BYTES || received > MAX_TOTAL_BYTES {
            return Some("response_byte_limit");
          }
          if chunks[i].late {
            return Some("source_timeout");
          }
        }
        assert chunks[..|chunks|] == chunks;
        if late {
          return Some("source_timeout");
        }
        return None;
    }
  }

  // ----- What the log says

  // What an answer to a container read says of its layout.
  function ReadingOf(e: Entry, place: Place): Option<bool> {
    if e.accepted && e.request.verb.Get? && e.request.path == Container(place)
      && e.response.Response? && e.response.content.Some? && e.response.content.value.layout.Ok? then
      Some(e.response.content.value.layout.value)
    else None
  }

  // The latest layout read of a container, if one could be read at all.
  function LastReading(log: seq<Entry>, place: Place): Option<bool> {
    if log == [] then None
    else
      Newer(ReadingOf(log[|log|-1], place), LastReading(log[..|log|-1], place))
  }

  // Answer `k` says so of the container's layout, and none after it says anything.
  ghost predicate LastSaid(log: seq<Entry>, place: Place, k: nat, compatible: bool) {
    && k < |log| && ReadingOf(log[k], place) == Some(compatible)
    && forall j :: k < j < |log| ==> ReadingOf(log[j], place) == None
  }

  lemma {:induction false} LastReadingMeans(log: seq<Entry>, place: Place, compatible: bool)
    ensures LastReading(log, place) == Some(compatible) <==> exists k: nat :: LastSaid(log, place, k, compatible)
  {
    if log != [] {
      var n := |log| - 1;
      LastReadingMeans(log[..n], place, compatible);
      assert forall k :: 0 <= k < n ==> log[..n][k] == log[k];
      if ReadingOf(log[n], place) == None {
        forall k: nat ensures LastSaid(log[..n], place, k, compatible) <==> LastSaid(log, place, k, compatible) {
        }
      } else {
        assert LastSaid(log, place, n, ReadingOf(log[n], place).value);
      }
    }
  }

  lemma ReadingMeans(e: Entry, place: Place, compatible: bool)
    ensures ReadingOf(e, place) == Some(compatible) <==>
      && e.accepted && e.request.verb == Get && e.request.path == Container(place)
      && e.response.Response? && e.response.content.Some? && e.response.content.value.layout == Ok(compatible)
  {
  }

  function Newer(a: Option<bool>, b: Option<bool>): Option<bool> { if a.Some? then a else b }

  function Token(token: Option<string>): Option<string> {
    if token == Some("") then None else token
  }

  predicate GoodToken(token: Option<string>) {
    Token(token).Some? ==> GoodCursor(Token(token).value)
  }

  // The page an answer carries.
  function PageIn(r: Response): Option<Selected> {
    if !r.Response? || r.content.None? then None
    else
      var c := r.content.value;
      if c.documents.None? || |c.documents.value| > PAGE_ITEMS || c.count != Some(|c.documents.value|) || !GoodToken(r.token) then None
      else Some(Selected(c.documents.value, Token(r.token)))
  }

  function PageOf(e: Entry): Option<Selected> {
    if e.accepted then PageIn(e.response) else None
  }

  function PostsIn(log: seq<Entry>): seq<Entry> {
    if log == [] then []
    else PostsIn(log[..|log|-1]) + (if log[|log|-1].request.verb.Get? then [] else [log[|log|-1]])
  }

  // A read of the account or of a container, with nothing in its body.
  predicate PlainRead(r: Request) {
    r.verb.Get? && r.endpoint && r.version && (r.path.Root? || r.path.Container?) && r.empty
  }

  // Exactly the selected query: statement, partition, page size and cursor.
  predicate ExactQuery(r: Request, q: Query, continuation: Option<string>) {
    && r.verb.Post? && r.endpoint && r.version && r.path == Docs(q.place) && r.size <= MAX_PAGE_BYTES
    && r.statement == Some(StatementOf(q)) && r.partition == Some([PartitionOf(q)]) && r.options
    && r.continuation == continuation
  }

  // The query of a conversation's record names its owner's partition and both
  // identities; that of its messages or documents its own partition alone.
  lemma ExactQueryMeans(r: Request, q: Query, continuation: Option<string>)
    ensures ExactQuery(r, q, continuation) <==>
      && r.verb == Post && r.endpoint && r.version && r.options && r.path == Docs(q.place)
      && r.size <= 131072 && r.continuation == continuation
      && (q.place == Sessions ==>
            r.statement == Some(SelectParent(q.pair.session, q.pair.owner)) && r.partition == Some([q.pair.owner]))
      && (q.place != Sessions ==>
            r.statement == Some(SelectChildren(q.pair.session)) && r.partition == Some([q.pair.session]))
  {
  }

  // A page is the documents an answer carries, at most 25 of them and as many as
  // it says, with its cursor unless that is empty.
  lemma PageInMeans(r: Response, page: Selected)
    ensures PageIn(r) == Some(page) <==>
      && r.Response? && r.content.Some?
      && r.content.value.documents == Some(page.rows) && r.content.value.count == Some(|page.rows|) && |page.rows| <= 25
      && (page.next.None? <==> r.token.None? || r.token == Some(""))
      && (page.next.Some? ==> page.next == r.token && GoodCursor(page.next.value))
  {
  }

  // What a request may be at this point of the log.
  predicate Allowed(r: Request, before: seq<Entry>, q: Option<Query>, continuation: Option<string>) {
    PlainRead(r)
    || (q.Some? && ExactQuery(r, q.value, continuation) && LastReading(before, q.value.place) == Some(true))
  }

  // From `mark` on, every request that reached the wire was allowed.
  ghost predicate Disciplined(log: seq<Entry>, mark: nat, q: Option<Query>, continuation: Option<string>) {
    forall k :: mark <= k < |log| ==> Allowed(log[k].request, log[..k], q, continuation)
  }

  datatype Outcome = Answered(response: Response) | EmptyBoundary | Barred(code: Code)

  class ReadOnlyTransport {
    const wire: Wire
    const cohort: set<Pair>
    var expected: Option<Query>
    var continuation: Option<string>
    var posts: nat
    var observed: Option<Selected>
    var layouts: map<Place, bool>
    ghost var mark: nat

    // The fields follow the log: the layouts known and, during a page call, what
    // has been sent and observed since it began.
    ghost predicate Valid() reads this, wire {
      && wire.Valid() && mark <= |wire.log|
      && Learned(layouts, wire.log)
      && (expected.Some? ==>
        && Disciplined(wire.log, mark, expected, continuation)
        && Counted(PostsIn(wire.log[mark..]), posts, observed))
    }

    constructor (wire: Wire, cohort: set<Pair>)
      requires wire.Valid() && wire.log == []
      ensures Valid() && this.wire == wire && this.cohort == cohort && expected.None?
    {
      this.wire, this.cohort := wire, cohort;
      expected, continuation, posts, observed, layouts, mark := None, None, 0, None, map[], 0;
    }

    // A page call begins and ends.
    method Begin(q: Query, continuation: Option<string>)
      requires Valid()
      modifies this
      ensures Valid() && expected == Some(q) && this.continuation == continuation && mark == |wire.log|
      ensures posts == 0 && layouts == old(layouts)
    {
      expected, this.continuation, posts, observed, mark := Some(q), continuation, 0, None, |wire.log|;
      assert wire.log[mark..] == [];
    }

    method End()
      requires Valid()
      modifies this
      ensures Valid() && expected.None?
    {
      expected, continuation := None, None;
    }

    // Whether a request may go out now; `Ok(true)` is a query, `Ok(false)` a read.
    function Screen(r: Request): Result<bool, Outcome>
      reads this
    {
      if !r.endpoint then Err(Barred("transport_scope_refused"))
      else if !r.version then Err(Barred("unsupported_cosmos_api"))
      else if r.verb.Get? && (r.path.Root? || r.path.Container?) then
        if r.empty then Ok(false) else Err(Barred("transport_scope_refused"))
      else if r.verb.Post? && expected.Some? then ScreenQuery(r, expected.value)
      else Err(Barred("transport_operation_refused"))
    }

    function ScreenQuery(r: Request, q: Query): Result<bool, Outcome>
      reads this
    {
      if q.pair !in cohort then Err(Barred("out_of_scope"))
      else if r.path != Docs(q.place) then Err(Barred("transport_scope_refused"))
      else if !(q.place in layouts && layouts[q.place]) then Err(Barred("partition_layout_not_observed"))
      else if r.size > MAX_PAGE_BYTES || r.statement != Some(StatementOf(q)) then Err(Barred("query_projection_refused"))
      else if r.partition != Some([PartitionOf(q)]) then Err(Barred("query_partition_refused"))
      else if !r.options then Err(Barred("query_options_refused"))
      else if posts > 0 then
        if posts == 1 && observed.Some? && observed.value.rows == [] && observed.value.next.Some?
          && r.continuation == observed.value.next then Err(EmptyBoundary)
        else Err(Barred("sdk_replay_refused"))
      else if r.continuation != continuation then Err(Barred("query_options_refused"))
      else Ok(true)
    }

    // The latest layout that could be read decides, and nothing else, once a
    // query is known to be for the selected place.
    lemma LayoutDecides(r: Request, q: Query)
      requires Valid() && q.pair in cohort && r.path == Docs(q.place)
      ensures ScreenQuery(r, q) == Err(Barred("partition_layout_not_observed")) <==>
        LastReading(wire.log, q.place) != Some(true)
    {
    }

    // So the exact query passes as the first one of its page.
    lemma ExactPasses(r: Request, q: Query)
      requires Valid() && expected == Some(q) && q.pair in cohort && posts == 0
      requires ExactQuery(r, q, continuation) && LastReading(wire.log, q.place) == Some(true)
      ensures Screen(r) == Ok(true)
    {
    }

    // A read passes exactly when it is of the account or a container, to the bound
    // endpoint in the pinned version, with nothing in its body.
    lemma ScreenReads(r: Request)
      ensures Screen(r) == Ok(false) <==>
        r.verb == Get && r.endpoint && r.version && r.empty && (r.path == Root || exists place :: r.path == Container(place))
      ensures Screen(r) == Ok(false) <==> PlainRead(r)
    {
    }

    // The selected query, but perhaps for its cursor.
    predicate Selects(r: Request)
      reads this
    {
      expected.Some? && expected.value.pair in cohort && ExactQuery(r, expected.value, r.continuation)
      && (expected.value.place, true) in layouts.Items
    }

    // And a query exactly when it is the selected one, of a pair of the cohort, over
    // a compatible layout, and the first of its page.
    lemma ScreenQueries(r: Request)
      ensures Screen(r) == Ok(true) <==> Selects(r) && r.continuation == continuation && posts == 0
    {
    }

    // After the first query the library is stopped: with the page in hand when it
    // asks, with that page's own cursor, for what follows an empty page, and
    // otherwise as a replay.
    lemma NoSecondQuery(r: Request)
      requires posts > 0
      ensures Screen(r) != Ok(true)
      ensures Screen(r) == Err(EmptyBoundary) <==>
        Selects(r) && posts == 1 && r.continuation.Some? && observed == Some(Selected([], r.continuation))
      ensures Selects(r) ==> Screen(r) == Err(EmptyBoundary) || Screen(r) == Err(Barred("sdk_replay_refused"))
    {
    }

    // A request that passes the screen, and whose answer comes in time and within
    // the budgets, is on the wire with that answer, and a page is observed.
    twostate predicate Delivered(r: Request, response: Response) reads this, wire {
      old(Screen(r)).Ok? && old(wire.Room()) && response.soon && Fit(response, old(wire.received)) ==>
        && wire.log == old(wire.log) + [Entry(r, response, true)]
        && wire.received == old(wire.received) + SizeOf(response.chunks)
        && (old(Screen(r)).value ==> posts == 1 && observed == PageIn(response))
    }

    // Whatever the library sends, what reaches the wire is allowed and the fields
    // stay true to the log.
    method Send(r: Request, response: Response) returns (outcome: Outcome)
      requires Valid()
      modifies wire, this`posts, this`observed, this`layouts
      ensures Valid()
      ensures Sent(wire.log, old(wire.log), r, response)
      ensures Disciplined(wire.log, |old(wire.log)|, expected, continuation)
      ensures Delivered(r, response)
    {
      var screened := Screen(r);
      if screened.Err? {
        return screened.error;
      }
      if screened.value {
        outcome := SendQuery(r, response);
      } else {
        outcome := SendRead(r, response);
      }
    }

    // Puts an allowed request on the wire, and does no more.
    method Transmit(r: Request, response: Response) returns (raw: Result<Response, Code>)
      requires wire.Valid() && mark <= |wire.log| && Learned(layouts, wire.log)
      requires expected.Some? ==> Disciplined(wire.log, mark, expected, continuation)
      requires Allowed(r, wire.log, expected, continuation)
      modifies wire
      ensures wire.Valid() && Sent(wire.log, old(wire.log), r, response)
      ensures expected.Some? ==> Disciplined(wire.log, mark, expected, continuation)
      ensures Disciplined(wire.log, |old(wire.log)|, expected, continuation)
      ensures old(wire.Room()) && response.soon && Fit(response, old(wire.received)) ==>
        raw.Ok? && wire.received == old(wire.received) + SizeOf(response.chunks)
      ensures raw.Ok? ==>
        raw.value == response && response.Response? && wire.log == old(wire.log) + [Entry(r, response, true)]
      ensures wire.log != old(wire.log) ==> wire.log == old(wire.log) + [Entry(r, response, raw.Ok?)]
      ensures Learned(Learn(layouts, Entry(r, response, raw.Ok?)), wire.log)
      ensures r.verb.Get? ==> PostsIn(wire.log[mark..]) == PostsIn(old(wire.log)[mark..])
      ensures wire.log != old(wire.log) && !r.verb.Get? ==>
        PostsIn(wire.log[mark..]) == PostsIn(old(wire.log)[mark..]) + [Entry(r, response, raw.Ok?)]
    {
      raw := wire.Request(r, response);
      ghost var e := Entry(r, response, raw.Ok?);
      LogGrows(old(wire.log), e, mark);
      LearnedMore(layouts, old(wire.log) + [e], old(wire.log), e, mark);
      DisciplineGrows(old(wire.log), e, |old(wire.log)|, expected, continuation);
      if expected.Some? {
        DisciplineGrows(old(wire.log), e, mark, expected, continuation);
      }
    }

    method SendQuery(r: Request, response: Response) returns (outcome: Outcome)
      requires Valid() && Allowed(r, wire.log, expected, continuation)
      requires !r.verb.Get? && expected.Some? && posts == 0
      modifies wire, this`posts, this`observed
      ensures Valid()
      ensures Sent(wire.log, old(wire.log), r, response)
      ensures Disciplined(wire.log, |old(wire.log)|, expected, continuation)
      ensures old(wire.Room()) && response.soon && Fit(response, old(wire.received)) ==>
        && wire.log == old(wire.log) + [Entry(r, response, true)]
        && wire.received == old(wire.received) + SizeOf(response.chunks)
        && posts == 1 && observed == PageIn(response)
      ensures outcome == match observed case Some(_) => Answered(response) case None => outcome
      ensures outcome.Answered? <==> observed.Some?
    {
      posts := 1;
      var raw := Transmit(r, response);
      observed := if raw.Ok? then PageIn(raw.value) else None;
      QueryCounted(PostsIn(old(wire.log)[mark..]), old(observed), Entry(r, response, raw.Ok?));
      outcome := if raw.Err? then Barred(raw.error) else if observed.None? then Barred("invalid_query_page") else Answered(raw.value);
    }

    method SendRead(r: Request, response: Response) returns (outcome: Outcome)
      requires Valid() && PlainRead(r)
      modifies wire, this`layouts
      ensures Valid()
      ensures Sent(wire.log, old(wire.log), r, response)
      ensures Disciplined(wire.log, |old(wire.log)|, expected, continuation)
      ensures old(wire.Room()) && response.soon && Fit(response, old(wire.received)) ==>
        && wire.log == old(wire.log) + [Entry(r, response, true)]
        && wire.received == old(wire.received) + SizeOf(response.chunks)
    {
      var raw := Transmit(r, response);
      if raw.Err? {
        return Barred(raw.error);
      }
      outcome := Absorb(r, raw.value);
    }

    // Takes the layout a container answer carries.
    method Absorb(r: Request, answer: Response) returns (outcome: Outcome)
      requires PlainRead(r) && answer.Response?
      modifies this`layouts
      ensures layouts == Learn(old(layouts), Entry(r, answer, true))
    {
      outcome := ReadAnswer(r, answer);
      if outcome.Answered? && r.path.Container? {
        layouts := layouts[r.path.place := answer.content.value.layout.value];
      }
    }
  }

  lemma QueryCounted(queries: seq<Entry>, observed: Option<Selected>, e: Entry)
    requires Counted(queries, 0, observed)
    ensures queries == [] && Counted([e], 1, PageOf(e)) && Counted([], 1, None)
  {
  }

  // At most this one request was added to the log.
  ghost predicate Sent(log: seq<Entry>, before: seq<Entry>, r: Request, response: Response) {
    log == before || log == before + [Entry(r, response, true)] || log == before + [Entry(r, response, false)]
  }

  // The account's answer passes only from a sole writer, and a container's
  // whenever its layout can be read.
  lemma ReadAnswerMeans(r: Request, answer: Response)
    requires answer.Response? && PlainRead(r)
    ensures ReadAnswer(r, answer).Answered? <==>
      answer.content.Some? && (if r.path == Root then answer.content.value.soleWriter else answer.content.value.layout.Ok?)
    ensures ReadAnswer(r, answer).Answered? ==> ReadAnswer(r, answer).response == answer
  {
  }

  // What a read makes of an answer that was let in.
  function ReadAnswer(r: Request, answer: Response): (outcome: Outcome)
    requires answer.Response? && PlainRead(r)
    ensures outcome.Answered? && r.path.Container? ==> answer.content.Some? && answer.content.value.layout.Ok?
    ensures r.path.Container? ==> (outcome.Answered? <==> ReadingOf(Entry(r, answer, true), r.path.place).Some?)
  {
    if answer.content.None? then Barred("invalid_json")
    else if r.path.Container? then
      (match answer.content.value.layout
       case Err(code) => Barred(code)
       case Ok(_) => Answered(answer))
    else if !answer.content.value.soleWriter then Barred("cosmos_account_layout_disagrees")
    else Answered(answer)
  }

  // What one more entry changes of what a log says.
  ghost predicate Extends(log: seq<Entry>, before: seq<Entry>, entry: Entry, mark: nat)
    requires mark <= |log| && mark <= |before|
  {
    && (forall place :: LastReading(log, place) == Newer(ReadingOf(entry, place), LastReading(before, place)))
    && PostsIn(log[mark..]) == PostsIn(before[mark..]) + (if entry.request.verb.Get? then [] else [entry])
  }

  lemma LogGrows(before: seq<Entry>, entry: Entry, mark: nat)
    requires mark <= |before|
    ensures Extends(before + [entry], before, entry, mark)
  {
    var log := before + [entry];
    assert log[..|before|] == before;
    assert log[mark..] == before[mark..] + [entry];
    assert log[mark..][..|before| - mark] == before[mark..];
  }

  lemma DisciplineGrows(before: seq<Entry>, entry: Entry, mark: nat, q: Option<Query>, c: Option<string>)
    requires mark <= |before| && Disciplined(before, mark, q, c) && Allowed(entry.request, before, q, c)
    ensures Disciplined(before + [entry], mark, q, c)
  {
    var log := before + [entry];
    forall k | mark <= k < |log|
      ensures Allowed(log[k].request, log[..k], q, c)
    {
      assert log[..k] == if k < |before| then before[..k] else before;
    }
  }

  // The layouts known are the latest readings.
  ghost predicate Learned(layouts: map<Place, bool>, log: seq<Entry>) {
    forall place :: LastReading(log, place) == (if place in layouts then Some(layouts[place]) else None)
  }

  function Learn(layouts: map<Place, bool>, e: Entry): map<Place, bool> {
    if e.request.path.Container? && ReadingOf(e, e.request.path.place).Some? then
      layouts[e.request.path.place := ReadingOf(e, e.request.path.place).value]
    else layouts
  }

  lemma LearnedMore(layouts: map<Place, bool>, log: seq<Entry>, before: seq<Entry>, e: Entry, mark: nat)
    requires Learned(layouts, before) && mark <= |before| && mark <= |log| && Extends(log, before, e, mark)
    ensures Learned(Learn(layouts, e), log)
  {
    forall place
      ensures LastReading(log, place) == (if place in Learn(layouts, e) then Some(Learn(layouts, e)[place]) else None)
    {
      if ReadingOf(e, place).Some? {
        assert e.request.path == Container(place);
      }
    }
  }

  // At most one query was sent, and what was observed is what it was answered.
  predicate Counted(queries: seq<Entry>, posts: nat, observed: Option<Selected>) {
    && |queries| <= posts <= 1
    && observed == (if queries == [] then None else PageOf(queries[0]))
  }

  // Any number of answers that are no layouts take an earlier one neither back
  // nor further.
  lemma {:induction false} UnreadableLayoutsKeepOld(log: seq<Entry>, more: seq<Entry>, place: Place)
    requires forall k :: 0 <= k < |more| ==> ReadingOf(more[k], place).None?
    ensures LastReading(log + more, place) == LastReading(log, place)
  {
    if more == [] {
      assert log + more == log;
    } else {
      UnreadableLayoutsKeepOld(log, more[..|more|-1], place);
      assert (log + more)[..|log + more|-1] == log + more[..|more|-1];
    }
  }
}
