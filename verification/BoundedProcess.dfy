// A child process drained by two threads through one bounded queue: every
// interleaving of the child, the threads, the consumer and the deadline.
module BoundedProcess {
  import opened Wrappers

  type Byte = b: int | 0 <= b < 256 witness 0

  const QUEUE_SLOTS := 16
  const READ_SIZE := 8192
  const ERROR_LIMIT := 65536

  datatype Label = StdOut | StdErr

  // An empty chunk is the end of its pipe.
  datatype Packet = Chunk(from: Label, bytes: seq<Byte>) | Overflow(from: Label) | PipeError(from: Label)

  datatype Thread = Reading | Offering(packet: Packet) | Stopped

  // One pipe with its thread.  `written` is all the child's side ever wrote and
  // `buffered` what has not been read yet; `taken` is what the consumer has
  // accepted (of standard error it keeps only the size).
  datatype Stream = Stream(
    limit: nat,
    written: seq<Byte>,
    buffered: seq<Byte>,
    closed: bool,
    thread: Thread,
    received: nat,
    taken: seq<Byte>,
    finished: bool)

  datatype Failure = DeadlineExceeded | PipeUnavailable | TooLarge(pipe: Label) | ReadFailed

  datatype Outcome = Running | Returned(body: seq<Byte>, warning: bool) | Raised(failure: Failure)

  datatype State = State(out: Stream, err: Stream, queue: seq<Packet>, exit: Option<int>, outcome: Outcome) {
    function Of(l: Label): Stream { if l == StdOut then out else err }

    function With(l: Label, stream: Stream): State {
      if l == StdOut then this.(out := stream) else this.(err := stream)
    }

    // The consumer's loop condition.
    predicate Draining() {
      !out.finished || !err.finished || exit.None?
    }
  }

  datatype Step =
    | Writes(pipe: Label, bytes: seq<Byte>)
    | Closes(pipe: Label)
    | Exits(code: int)
    | Reads(pipe: Label, size: nat)
    | ReadBreaks(pipe: Label)
    | Offers(pipe: Label)
    | Takes
    | TimesOut
    | Ends

  function Fresh(limit: nat): Stream {
    Stream(limit, [], [], false, Reading, 0, [], false)
  }

  function Initial(limit: nat): State {
    State(Fresh(limit), Fresh(ERROR_LIMIT), [], None, Running)
  }

  function Min(a: nat, b: nat): nat { if a < b then a else b }

  // A read asks for at most this many bytes, one more than the limit allows.
  function Request(s: Stream): int { Min(READ_SIZE, if s.received > s.limit then 0 else s.limit + 1 - s.received) }

  predicate Terminal(p: Packet) {
    !p.Chunk? || p.bytes == []
  }

  predicate Enabled(s: State, step: Step) {
    && s.outcome == Running
    && match step
       case Writes(l, _) => !s.Of(l).closed
       case Closes(l) => !s.Of(l).closed
       case Exits(_) => s.exit.None?
       case Reads(l, n) =>
         && s.Of(l).thread == Reading
         && n <= Request(s.Of(l)) && n <= |s.Of(l).buffered|
         && (n == 0 ==> s.Of(l).buffered == [] && s.Of(l).closed)
       case ReadBreaks(l) => s.Of(l).thread == Reading
       case Offers(l) => s.Of(l).thread.Offering? && |s.queue| < QUEUE_SLOTS
       case Takes => s.Draining() && s.queue != []
       case TimesOut => s.Draining()
       case Ends => !s.Draining()
  }

  // One read of `n` bytes, and the packet made of them.
  function AfterRead(t: Stream, l: Label, n: nat): Stream
    requires n <= |t.buffered|
  {
    var packet := if t.received + n > t.limit then Overflow(l) else Chunk(l, t.buffered[..n]);
    t.(buffered := t.buffered[n..], received := t.received + n, thread := Offering(packet))
  }

  function After(s: State, step: Step): State
    requires Enabled(s, step)
  {
    match step
    case Writes(l, b) =>
      var t := s.Of(l);
      s.With(l, t.(written := t.written + b, buffered := t.buffered + b))
    case Closes(l) => s.With(l, s.Of(l).(closed := true))
    case Exits(code) => s.(exit := Some(code))
    case Reads(l, n) =>
      s.With(l, AfterRead(s.Of(l), l, n))
    case ReadBreaks(l) => s.With(l, s.Of(l).(thread := Offering(PipeError(l))))
    case Offers(l) =>
      var p := s.Of(l).thread.packet;
      s.With(l, s.Of(l).(thread := if Terminal(p) then Stopped else Reading)).(queue := s.queue + [p])
    case Takes =>
      var rest := s.(queue := s.queue[1..]);
      (match s.queue[0]
       case PipeError(_) => rest.(outcome := Raised(PipeUnavailable))
       case Overflow(l) => rest.(outcome := Raised(TooLarge(l)))
       case Chunk(l, b) =>
         var t := s.Of(l);
         if b == [] then rest.With(l, t.(finished := true))
         else if |t.taken| + |b| > t.limit then rest.(outcome := Raised(TooLarge(l)))
         else rest.With(l, t.(taken := t.taken + b)))
    case TimesOut => s.(outcome := Raised(DeadlineExceeded))
    case Ends =>
      s.(outcome := if s.exit == Some(0) then Returned(s.out.taken, s.err.taken != []) else Raised(ReadFailed))
  }

  // The state after taking these steps in order, each enabled when it is taken.
  ghost function Reach(limit: nat, steps: seq<Step>): Option<State> {
    if steps == [] then Some(Initial(limit))
    else
      var s :- Reach(limit, steps[..|steps|-1]);
      if Enabled(s, steps[|steps|-1]) then Some(After(s, steps[|steps|-1])) else None
  }

  // ----- The packets of one pipe, in order: those queued and the one offered

  function From(queue: seq<Packet>, l: Label): seq<Packet> {
    if queue == [] then []
    else if queue[0].from == l then [queue[0]] + From(queue[1..], l)
    else From(queue[1..], l)
  }

  function Bytes(ps: seq<Packet>): seq<Byte> {
    if ps == [] then []
    else (if ps[0].Chunk? then ps[0].bytes else []) + Bytes(ps[1..])
  }

  function InFlight(s: State, l: Label): seq<Packet> {
    From(s.queue, l) + if s.Of(l).thread.Offering? then [s.Of(l).thread.packet] else []
  }

  lemma {:induction false} FromAppend(queue: seq<Packet>, p: Packet, l: Label)
    ensures From(queue + [p], l) == From(queue, l) + if p.from == l then [p] else []
  {
    if queue == [] {
      assert [p][1..] == [];
    } else {
      FromAppend(queue[1..], p, l);
      assert (queue + [p])[1..] == queue[1..] + [p];
    }
  }

  lemma {:induction false} BytesAppend(ps: seq<Packet>, p: Packet)
    ensures Bytes(ps + [p]) == Bytes(ps) + if p.Chunk? then p.bytes else []
  {
    if ps == [] {
      assert [p][1..] == [];
    } else {
      BytesAppend(ps[1..], p);
      assert (ps + [p])[1..] == ps[1..] + [p];
      var head, last := if ps[0].Chunk? then ps[0].bytes else [], if p.Chunk? then p.bytes else [];
      assert head + (Bytes(ps[1..]) + last) == head + Bytes(ps[1..]) + last;
    }
  }

  // ----- The invariant

  // Only the last packet of a pipe can end it, and its thread has then stopped
  // reading.
  ghost predicate Orderly(t: Stream, ps: seq<Packet>, l: Label) {
    && (forall i :: 0 <= i < |ps| ==> ps[i].from == l)
    && (forall i :: 0 <= i < |ps| - 1 ==> !Terminal(ps[i]))
    && (t.thread == Reading ==> forall i :: 0 <= i < |ps| ==> !Terminal(ps[i]))
    && (t.thread == Stopped ==> t.finished || (ps != [] && Terminal(ps[|ps|-1])))
    && (t.finished ==> t.thread == Stopped && ps == [])
    && (t.finished || (ps != [] && ps[|ps|-1] == Chunk(l, [])) ==> t.closed && t.buffered == [])
  }

  // Unless the last packet gives the pipe up, nothing the child wrote is lost or
  // reordered between the child and the consumer.
  ghost predicate Conserves(t: Stream, ps: seq<Packet>) {
    && (GivenUp(ps) ||
          (t.taken + Bytes(ps) + t.buffered == t.written
           && t.received == |t.taken| + |Bytes(ps)|))
    && |t.taken| + |Bytes(ps)| <= t.limit
    && (ps != [] && ps[|ps|-1].Overflow? ==> |t.written| > t.limit)
  }

  ghost predicate StreamInvariant(t: Stream, ps: seq<Packet>, l: Label) {
    Orderly(t, ps, l) && Conserves(t, ps)
  }

  ghost predicate GivenUp(ps: seq<Packet>) {
    ps != [] && !ps[|ps|-1].Chunk?
  }

  ghost predicate Invariant(s: State) {
    s.outcome == Running ==>
      StreamInvariant(s.out, InFlight(s, StdOut), StdOut) && StreamInvariant(s.err, InFlight(s, StdErr), StdErr)
  }

  // What a finished run says about the child.
  ghost predicate Verdict(s: State) {
    match s.outcome
    case Running => true
    case Returned(body, warning) =>
      && body == s.out.written && |body| <= s.out.limit && s.out.closed && s.out.buffered == []
      && (warning <==> s.err.written != []) && |s.err.written| <= s.err.limit && s.err.closed && s.err.buffered == []
      && s.exit == Some(0)
    case Raised(TooLarge(l)) => |s.Of(l).written| > s.Of(l).limit
    case Raised(ReadFailed) => s.exit.Some? && s.exit.value != 0
    case Raised(_) => true
  }

  lemma StreamWrites(t: Stream, ps: seq<Packet>, l: Label, b: seq<Byte>)
    requires StreamInvariant(t, ps, l) && !t.closed
    ensures StreamInvariant(t.(written := t.written + b, buffered := t.buffered + b), ps, l)
  {
    assert t.taken + Bytes(ps) + (t.buffered + b) == t.taken + Bytes(ps) + t.buffered + b;
  }

  // The thread's next packet, made of the bytes of one read.
  lemma StreamReads(t: Stream, ps: seq<Packet>, l: Label, n: nat)
    requires StreamInvariant(t, ps, l) && t.thread == Reading && n <= |t.buffered|
    requires n == 0 ==> t.buffered == [] && t.closed
    ensures StreamInvariant(AfterRead(t, l, n), ps + [AfterRead(t, l, n).thread.packet], l)
  {
    assert Orderly(AfterRead(t, l, n), ps + [AfterRead(t, l, n).thread.packet], l);
    ReadsConserve(t, ps, l, n);
  }

  lemma ReadsConserve(t: Stream, ps: seq<Packet>, l: Label, n: nat)
    requires Conserves(t, ps) && !GivenUp(ps) && n <= |t.buffered|
    ensures Conserves(AfterRead(t, l, n), ps + [AfterRead(t, l, n).thread.packet])
  {
    BytesAppend(ps, AfterRead(t, l, n).thread.packet);
    Regroup(t.taken, Bytes(ps), t.buffered, n);
  }

  lemma Regroup(a: seq<Byte>, b: seq<Byte>, c: seq<Byte>, n: nat)
    requires n <= |c|
    ensures a + (b + c[..n]) + c[n..] == a + b + c
  {
    assert c == c[..n] + c[n..];
  }

  lemma StreamBreaks(t: Stream, ps: seq<Packet>, l: Label)
    requires StreamInvariant(t, ps, l) && t.thread == Reading
    ensures StreamInvariant(t.(thread := Offering(PipeError(l))), ps + [PipeError(l)], l)
  {
    BytesAppend(ps, PipeError(l));
  }

  lemma WritesKeeps(s: State, l: Label, b: seq<Byte>)
    requires Enabled(s, Writes(l, b)) && Invariant(s)
    ensures Invariant(After(s, Writes(l, b)))
  {
    StreamWrites(s.Of(l), InFlight(s, l), l, b);
  }

  lemma ReadsKeeps(s: State, l: Label, n: nat)
    requires Enabled(s, Reads(l, n)) && Invariant(s)
    ensures Invariant(After(s, Reads(l, n)))
  {
    StreamReads(s.Of(l), InFlight(s, l), l, n);
    assert InFlight(s, l) == From(s.queue, l);
  }

  lemma BreaksKeeps(s: State, l: Label)
    requires Enabled(s, ReadBreaks(l)) && Invariant(s)
    ensures Invariant(After(s, ReadBreaks(l)))
  {
    StreamBreaks(s.Of(l), InFlight(s, l), l);
    assert InFlight(s, l) == From(s.queue, l);
  }

  lemma StreamOffers(t: Stream, ps: seq<Packet>, l: Label)
    requires StreamInvariant(t, ps, l) && t.thread.Offering? && ps != [] && ps[|ps|-1] == t.thread.packet
    ensures StreamInvariant(t.(thread := if Terminal(t.thread.packet) then Stopped else Reading), ps, l)
  {
  }

  lemma OffersKeeps(s: State, l: Label)
    requires Enabled(s, Offers(l)) && Invariant(s)
    ensures Invariant(After(s, Offers(l)))
  {
    var ps := InFlight(s, l);
    assert ps[|ps|-1] == s.Of(l).thread.packet;
    StreamOffers(s.Of(l), ps, l);
    OffersInFlight(s, l);
  }

  // Offering moves the packet from the thread to the queue.
  lemma OffersInFlight(s: State, l: Label)
    requires Enabled(s, Offers(l)) && s.Of(l).thread.packet.from == l
    ensures InFlight(After(s, Offers(l)), StdOut) == InFlight(s, StdOut)
    ensures InFlight(After(s, Offers(l)), StdErr) == InFlight(s, StdErr)
  {
    FromAppend(s.queue, s.Of(l).thread.packet, StdOut);
    FromAppend(s.queue, s.Of(l).thread.packet, StdErr);
  }

  // The first packet of the queue is the first of its pipe, and not of the other.
  lemma TakesInFlight(s: State, l: Label)
    requires s.queue != []
    ensures s.queue[0].from == l ==>
      InFlight(s, l) == [s.queue[0]] + InFlight(s.(queue := s.queue[1..]), l)
    ensures s.queue[0].from != l ==> InFlight(s, l) == InFlight(s.(queue := s.queue[1..]), l)
  {
  }

  lemma TakesStream(t: Stream, p: Packet, rest: seq<Packet>, l: Label)
    requires StreamInvariant(t, [p] + rest, l) && p.Chunk? && (t.thread.Offering? ==> rest != [])
    ensures p.bytes == [] ==> rest == [] && StreamInvariant(t.(finished := true), rest, l)
    ensures p.bytes != [] ==> StreamInvariant(t.(taken := t.taken + p.bytes), rest, l)
    ensures |t.taken| + |p.bytes| <= t.limit
  {
    var ps := [p] + rest;
    assert ps[1..] == rest && Bytes(ps) == p.bytes + Bytes(rest);
    assert forall i :: 0 <= i < |rest| ==> rest[i] == ps[i+1];
    assert t.taken + (p.bytes + Bytes(rest)) + t.buffered == t.taken + p.bytes + Bytes(rest) + t.buffered;
    assert rest != [] ==> rest[|rest|-1] == ps[|ps|-1];
    assert rest == [] ==> ps == [p];
  }

  lemma TakesKeeps(s: State)
    requires Enabled(s, Takes) && Invariant(s)
    ensures Invariant(After(s, Takes)) && Verdict(After(s, Takes))
  {
    var p := s.queue[0];
    if p.Chunk? {
      TakesChunk(s, p);
    } else {
      TakesInFlight(s, p.from);
      var ps := InFlight(s, p.from);
      assert Terminal(ps[0]);
      assert ps == [p];
    }
  }

  lemma TakesChunk(s: State, p: Packet)
    requires Enabled(s, Takes) && Invariant(s) && p == s.queue[0] && p.Chunk?
    ensures Invariant(After(s, Takes)) && After(s, Takes).outcome == Running
  {
    var l, rest := p.from, s.(queue := s.queue[1..]);
    TakesInFlight(s, StdOut);
    TakesInFlight(s, StdErr);
    TakesStream(s.Of(l), p, InFlight(rest, l), l);
    var after := After(s, Takes);
    assert InFlight(after, StdOut) == InFlight(rest, StdOut);
    assert InFlight(after, StdErr) == InFlight(rest, StdErr);
  }

  lemma ClosesKeeps(s: State, l: Label)
    requires Enabled(s, Closes(l)) && Invariant(s)
    ensures Invariant(After(s, Closes(l)))
  {
    var ps := InFlight(s, l);
    assert StreamInvariant(s.Of(l).(closed := true), ps, l);
  }

  lemma EndsKeeps(s: State)
    requires Enabled(s, Ends) && Invariant(s)
    ensures Verdict(After(s, Ends))
  {
    assert InFlight(s, StdOut) == [] && InFlight(s, StdErr) == [];
  }

  lemma StepKeeps(s: State, step: Step)
    requires Enabled(s, step) && Invariant(s)
    ensures Invariant(After(s, step)) && Verdict(After(s, step))
  {
    match step
    case Writes(l, b) => WritesKeeps(s, l, b);
    case Reads(l, n) => ReadsKeeps(s, l, n);
    case ReadBreaks(l) => BreaksKeeps(s, l);
    case Offers(l) => OffersKeeps(s, l);
    case Takes => TakesKeeps(s);
    case Closes(l) => ClosesKeeps(s, l);
    case Ends => EndsKeeps(s);
    case _ =>
  }

  lemma LimitsKept(s: State, step: Step)
    requires Enabled(s, step)
    ensures After(s, step).out.limit == s.out.limit && After(s, step).err.limit == s.err.limit
  {
  }

  lemma InitialInvariant(limit: nat)
    ensures Invariant(Initial(limit))
  {
  }

  // In every interleaving: a normal return carries exactly the child's whole
  // standard output in order, within the limit, with both pipes at their end
  // and exit code 0, and a size failure is only raised for a size that is too
  // large.
  lemma {:induction false} EveryRun(limit: nat, steps: seq<Step>)
    requires Reach(limit, steps).Some?
    ensures var s := Reach(limit, steps).value;
      Invariant(s) && Verdict(s) && s.out.limit == limit && s.err.limit == ERROR_LIMIT
    decreases |steps|
  {
    if steps == [] {
      InitialInvariant(limit);
    } else {
      EveryRun(limit, steps[..|steps|-1]);
      var before, step := Reach(limit, steps[..|steps|-1]).value, steps[|steps|-1];
      StepKeeps(before, step);
      LimitsKept(before, step);
      assert Reach(limit, steps) == Some(After(before, step));
    }
  }

  // ----- No interleaving gets stuck

  function ThreadWork(t: Stream): nat {
    match t.thread
    case Stopped => 0
    case Reading => 3 * |t.buffered| + 3
    case Offering(p) => if Terminal(p) then 2 else 3 * |t.buffered| + 5
  }

  // What is left for the threads and the consumer once the child writes no more.
  function Work(s: State): nat {
    ThreadWork(s.out) + ThreadWork(s.err) + |s.queue| + if s.outcome == Running then 1 else 0
  }

  // Every step of a thread or the consumer uses up some of it.
  lemma WorkFalls(s: State, step: Step)
    requires Enabled(s, step) && !step.Writes? && !step.Closes? && !step.Exits?
    ensures Work(After(s, step)) < Work(s)
  {
  }

  // When the child has exited and nobody holds its pipes open, the run is over
  // or some thread or the consumer can go on without waiting for the deadline.
  lemma NeverStuck(limit: nat, steps: seq<Step>) returns (step: Step)
    requires Reach(limit, steps).Some?
    requires var s := Reach(limit, steps).value;
      s.outcome == Running && s.out.closed && s.err.closed && s.exit.Some?
    ensures var s := Reach(limit, steps).value;
      Enabled(s, step) && !step.TimesOut? && Work(After(s, step)) < Work(s)
  {
    var s := Reach(limit, steps).value;
    EveryRun(limit, steps);
    if !s.Draining() {
      step := Ends;
    } else if s.queue != [] {
      step := Takes;
    } else if s.out.thread.Offering? {
      step := Offers(StdOut);
    } else if s.err.thread.Offering? {
      step := Offers(StdErr);
    } else if s.out.thread == Reading {
      step := Reads(StdOut, Min(Request(s.out), |s.out.buffered|));
    } else {
      assert InFlight(s, StdOut) == [] && InFlight(s, StdErr) == [];
      step := Reads(StdErr, Min(Request(s.err), |s.err.buffered|));
    }
    WorkFalls(s, step);
  }
}
