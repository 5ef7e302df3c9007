// What bounds and explains the runs of a bounded process: how much it may hold,
// why it failed, and that every output within the limits can be returned.
module ProcessLaws {
  import opened Wrappers
  import opened BoundedProcess

  lemma ReachStep(limit: nat, steps: seq<Step>, step: Step)
    requires Reach(limit, steps).Some? && Enabled(Reach(limit, steps).value, step)
    ensures Reach(limit, steps + [step]) == Some(After(Reach(limit, steps).value, step))
  {
    assert (steps + [step])[..|steps|] == steps;
  }

  // ----- Bounds

  // A thread has read at most one byte more than its limit, and then reads no more.
  ghost predicate WithinLimit(t: Stream) {
    && t.received <= t.limit + 1
    && (t.received > t.limit ==> t.thread != Reading && (t.thread.Offering? ==> Terminal(t.thread.packet)))
  }

  ghost predicate Bounded(s: State) {
    |s.queue| <= 16 && WithinLimit(s.out) && WithinLimit(s.err)
  }

  lemma StepBounded(s: State, step: Step)
    requires Enabled(s, step) && Bounded(s)
    ensures Bounded(After(s, step))
    ensures step.Reads? ==> step.size <= 8192
  {
  }

  // At any time at most sixteen packets wait, and no thread has read more than
  // one byte beyond its limit, in pieces of at most 8192.
  lemma {:induction false} EveryRunBounded(limit: nat, steps: seq<Step>)
    requires Reach(limit, steps).Some?
    ensures Bounded(Reach(limit, steps).value)
    ensures forall step :: step in steps && step.Reads? ==> step.size <= 8192
    decreases |steps|
  {
    if steps != [] {
      var prefix, last := steps[..|steps|-1], steps[|steps|-1];
      EveryRunBounded(limit, prefix);
      StepBounded(Reach(limit, prefix).value, last);
      assert steps == prefix + [last];
    }
  }

  // ----- Why a run ended as it did

  // A broken pipe is reported only when a read did break.
  ghost predicate Explained(s: State, steps: seq<Step>) {
    && (forall p :: p in s.queue && p.PipeError? ==> ReadBreaks(p.from) in steps)
    && (s.out.thread.Offering? && s.out.thread.packet.PipeError? ==> ReadBreaks(s.out.thread.packet.from) in steps)
    && (s.err.thread.Offering? && s.err.thread.packet.PipeError? ==> ReadBreaks(s.err.thread.packet.from) in steps)
    && (s.outcome == Raised(PipeUnavailable) ==> exists l :: ReadBreaks(l) in steps)
    && (s.outcome == Raised(DeadlineExceeded) <==> TimesOut in steps)
    && (s.outcome == Raised(DeadlineExceeded) ==> s.Draining())
    && (s.outcome.Returned? || s.outcome == Raised(ReadFailed) <==> Ends in steps)
    && (s.outcome.Returned? ==> s.exit == Some(0))
    && (s.outcome == Raised(ReadFailed) ==> s.exit != Some(0))
  }

  lemma StepExplained(s: State, steps: seq<Step>, step: Step)
    requires Enabled(s, step) && Explained(s, steps)
    ensures Explained(After(s, step), steps + [step])
  {
    var more := steps + [step];
    assert forall x :: x in more <==> x in steps || x == step;
    if step.Takes? {
      assert s.queue[0] in s.queue && forall p :: p in s.queue[1..] ==> p in s.queue;
    }
  }

  // A run ends by the deadline exactly when the deadline came, by a broken pipe
  // only when a read broke, and otherwise by an overflow or, once both pipes are
  // at their end, by the exit code: a return for 0 and a failed read for any other.
  lemma {:induction false} EveryRunExplained(limit: nat, steps: seq<Step>)
    requires Reach(limit, steps).Some?
    ensures Explained(Reach(limit, steps).value, steps)
    decreases |steps|
  {
    if steps != [] {
      var prefix, last := steps[..|steps|-1], steps[|steps|-1];
      EveryRunExplained(limit, prefix);
      StepExplained(Reach(limit, prefix).value, prefix, last);
      assert steps == prefix + [last];
    }
  }

  // Whatever has happened, the deadline may still come until both pipes are at
  // their end and the child has exited.
  lemma DeadlineMayCome(limit: nat, steps: seq<Step>)
    requires Reach(limit, steps).Some? && Reach(limit, steps).value.outcome == Running
    requires var s := Reach(limit, steps).value; !s.out.finished || !s.err.finished || s.exit.None?
    ensures Reach(limit, steps + [TimesOut]).Some?
    ensures Reach(limit, steps + [TimesOut]).value.outcome == Raised(DeadlineExceeded)
  {
    ReachStep(limit, steps, TimesOut);
  }

  // ----- Every output within the limits can be returned

  // A pipe whose end is closed and which is being drained.
  ghost predicate Drainable(s: State, l: Label) {
    && s.outcome == Running && s.queue == [] && s.Draining()
    && var t := s.Of(l);
       && t.closed && t.thread == Reading && !t.finished
       && t.received == |t.taken| && t.received + |t.buffered| <= t.limit
  }

  // A read of `n` bytes, its packet offered and then taken.
  ghost function ReadOn(s: State, l: Label, n: nat): State
    requires n <= |s.Of(l).buffered|
  {
    var t := s.Of(l);
    s.With(l, if n == 0 then t.(thread := Stopped, finished := true)
              else t.(buffered := t.buffered[n..], received := t.received + n, taken := t.taken + t.buffered[..n]))
  }

  lemma ReadsOn(limit: nat, steps: seq<Step>, s: State, l: Label, n: nat) returns (more: seq<Step>)
    requires Reach(limit, steps) == Some(s) && Drainable(s, l)
    requires n <= Request(s.Of(l)) && n <= |s.Of(l).buffered| && (n == 0 ==> s.Of(l).buffered == [])
    ensures Reach(limit, more) == Some(ReadOn(s, l, n))
  {
    ReachStep(limit, steps, Reads(l, n));
    var s1 := After(s, Reads(l, n));
    ReachStep(limit, steps + [Reads(l, n)], Offers(l));
    var s2 := After(s1, Offers(l));
    ReachStep(limit, steps + [Reads(l, n)] + [Offers(l)], Takes);
    more := steps + [Reads(l, n)] + [Offers(l)] + [Takes];
    var p := Chunk(l, s.Of(l).buffered[..n]);
    assert s1.Of(l).thread == Offering(p) && s2.queue == [p] && [p][1..] == [];
  }

  // The pipe read to its end: everything written is taken.
  ghost function DrainedStream(t: Stream): Stream {
    t.(buffered := [], received := |t.taken| + |t.buffered|, taken := t.taken + t.buffered, thread := Stopped, finished := true)
  }

  lemma {:induction false} Drains(limit: nat, steps: seq<Step>, s: State, l: Label) returns (more: seq<Step>)
    requires Reach(limit, steps) == Some(s) && Drainable(s, l)
    ensures Reach(limit, more) == Some(s.With(l, DrainedStream(s.Of(l))))
    decreases |s.Of(l).buffered|
  {
    var t := s.Of(l);
    if t.buffered == [] {
      more := ReadsOn(limit, steps, s, l, 0);
      assert t.taken + [] == t.taken;
    } else {
      var n := if |t.buffered| <= 8192 then |t.buffered| else 8192;
      var middle := ReadsOn(limit, steps, s, l, n);
      var next := ReadOn(s, l, n);
      StillDrainable(s, l, n);
      more := Drains(limit, middle, next, l);
    }
  }

  lemma StillDrainable(s: State, l: Label, n: nat)
    requires Drainable(s, l) && 0 < n <= |s.Of(l).buffered|
    ensures var next := ReadOn(s, l, n);
      && Drainable(next, l) && |next.Of(l).buffered| < |s.Of(l).buffered|
      && next.With(l, DrainedStream(next.Of(l))) == s.With(l, DrainedStream(s.Of(l)))
  {
    var t := s.Of(l);
    assert t.taken + t.buffered[..n] + t.buffered[n..] == t.taken + t.buffered;
  }

  lemma Written(limit: nat, steps: seq<Step>, s: State, l: Label, b: seq<Byte>) returns (more: seq<Step>)
    requires Reach(limit, steps) == Some(s) && s.outcome == Running && !s.Of(l).closed
    ensures Reach(limit, more) == Some(s.With(l, s.Of(l).(written := s.Of(l).written + b, buffered := s.Of(l).buffered + b, closed := true)))
  {
    ReachStep(limit, steps, Writes(l, b));
    ReachStep(limit, steps + [Writes(l, b)], Closes(l));
    more := steps + [Writes(l, b)] + [Closes(l)];
  }

  // Whatever a child writes within the limits before it exits with code 0, some
  // run returns it, with the warning that there were diagnostics if there were.
  lemma AnyOutputReturned(limit: nat, body: seq<Byte>, diagnostics: seq<Byte>) returns (steps: seq<Step>)
    requires |body| <= limit && |diagnostics| <= 65536
    ensures Reach(limit, steps).Some? && Reach(limit, steps).value.outcome == Returned(body, diagnostics != [])
  {
    assert Reach(limit, []) == Some(Initial(limit)) && [] + body == body && [] + diagnostics == diagnostics;
    steps := Written(limit, [], Initial(limit), StdOut, body);
    var s := Reach(limit, steps).value;
    steps := Written(limit, steps, s, StdErr, diagnostics);
    s := Reach(limit, steps).value;
    steps := Drains(limit, steps, s, StdOut);
    s := Reach(limit, steps).value;
    steps := Drains(limit, steps, s, StdErr);
    s := Reach(limit, steps).value;
    ReachStep(limit, steps, Exits(0));
    steps := steps + [Exits(0)];
    ReachStep(limit, steps, Ends);
    steps := steps + [Ends];
  }
}
