// Reading one query page by page, within the limits of a scan and of the whole
// collection, from a service that may answer anything.
module DeletionScan {
  import opened Wrappers
  import opened DeletionRecords

  const PAGE_ITEMS := 25
  const MAX_PAGES := 4
  const MAX_ROWS := 100
  const MAX_CURSOR := 4096
  const MAX_PAGE_BYTES := 128 * 1024
  const MAX_TOTAL_BYTES := 4 * 1024 * 1024
  const MAX_CALLS := 160

  // The service's answer to one page request: a failure, something that is not
  // a list of rows, or rows with a continuation and their size in bytes.
  datatype Reply<T> =
    | Refused(code: Code)
    | NotAList
    | Page(rows: seq<T>, next: Option<string>, bytes: nat)

  // One request as the world answers it; `soon` and `inTime` say that the
  // collection's deadline has not passed before it and after it.
  datatype Turn<T> = Turn(soon: bool, reply: Reply<T>, inTime: bool)

  class Budget {
    var calls: nat
    var received: nat

    constructor ()
      ensures calls == 0 && received == 0
    {
      calls, received := 0, 0;
    }

    method Before(soon: bool) returns (r: Result<(), Code>)
      modifies this
      ensures received == old(received)
      ensures r.Ok? <==> soon && old(received) < MAX_TOTAL_BYTES && old(calls) < MAX_CALLS
      ensures calls == old(calls) + (if r.Ok? then 1 else 0)
    {
      if !soon {
        return Err("collection_timeout");
      }
      if received >= MAX_TOTAL_BYTES {
        return Err("response_byte_limit");
      }
      if calls >= MAX_CALLS {
        return Err("call_limit");
      }
      calls := calls + 1;
      return Ok(());
    }

    method Receive(bytes: nat, inTime: bool) returns (r: Result<(), Code>)
      modifies this
      ensures calls == old(calls) && received == old(received) + bytes
      ensures r.Ok? <==> bytes <= MAX_PAGE_BYTES && received <= MAX_TOTAL_BYTES && inTime
    {
      received := received + bytes;
      if bytes > MAX_PAGE_BYTES || received > MAX_TOTAL_BYTES {
        return Err("response_byte_limit");
      }
      if !inTime {
        return Err("collection_timeout");
      }
      return Ok(());
    }
  }

  function Utf8Size(s: string): nat {
    if s == "" then 0
    else
      var c := s[|s|-1] as int;
      Utf8Size(s[..|s|-1]) + (if c < 0x80 then 1 else if c < 0x800 then 2 else if c < 0x10000 then 3 else 4)
  }

  predicate GoodCursor(c: string) {
    c != "" && Utf8Size(c) <= MAX_CURSOR && forall i :: 0 <= i < |c| ==> c[i] as int >= 32 && c[i] as int != 127
  }

  // A usable cursor is not empty, at most 4096 bytes long and has no control
  // characters; of ASCII characters any such text is one.
  lemma {:induction false} Utf8SizeMeans(s: string)
    ensures |s| <= Utf8Size(s) <= 4 * |s|
    ensures (forall i :: 0 <= i < |s| ==> s[i] as int < 0x80) <==> Utf8Size(s) == |s|
    ensures (forall i :: 0 <= i < |s| ==> 0x80 <= s[i] as int < 0x800) ==> Utf8Size(s) == 2 * |s|
    ensures (forall i :: 0 <= i < |s| ==> 0x800 <= s[i] as int < 0x10000) ==> Utf8Size(s) == 3 * |s|
    ensures (forall i :: 0 <= i < |s| ==> 0x10000 <= s[i] as int) ==> Utf8Size(s) == 4 * |s|
  {
    if s != "" {
      Utf8SizeMeans(s[..|s|-1]);
    }
  }

  lemma GoodCursorMeans(c: string)
    ensures GoodCursor(c) ==> 1 <= |c| <= 4096 && forall i :: 0 <= i < |c| ==> ' ' <= c[i] && c[i] as int != 127
    ensures 1 <= |c| <= 4096 && (forall i :: 0 <= i < |c| ==> ' ' <= c[i] <= '~') ==> GoodCursor(c)
    ensures Utf8Size(c) > 4096 ==> !GoodCursor(c)
  {
    Utf8SizeMeans(c);
  }

  // ----- What it means to have paged to the end

  function RowsOf<T>(turns: seq<Turn<T>>): seq<T> {
    if turns == [] then []
    else RowsOf(turns[..|turns|-1]) + (if turns[|turns|-1].reply.Page? then turns[|turns|-1].reply.rows else [])
  }

  function BytesOf<T>(turns: seq<Turn<T>>): nat {
    if turns == [] then 0
    else BytesOf(turns[..|turns|-1]) + (if turns[|turns|-1].reply.Page? then turns[|turns|-1].reply.bytes else 0)
  }

  predicate GoodPage<T>(t: Turn<T>) {
    t.soon && t.inTime && t.reply.Page? && |t.reply.rows| <= PAGE_ITEMS && t.reply.bytes <= MAX_PAGE_BYTES
  }

  predicate Continues<T>(t: Turn<T>) {
    t.reply.Page? && t.reply.next.Some? && GoodCursor(t.reply.next.value)
  }

  // Good pages that lead on, no two to the same place.
  ghost predicate Chain<T>(turns: seq<Turn<T>>) {
    && (forall k :: 0 <= k < |turns| ==> GoodPage(turns[k]) && Continues(turns[k]))
    && (forall j, k :: 0 <= j < k < |turns| && turns[j].reply.Page? && turns[k].reply.Page? ==> turns[j].reply.next != turns[k].reply.next)
  }

  // A whole partition: a chain of pages and one more that ends it.
  ghost predicate PagedToEnd<T>(turns: seq<Turn<T>>) {
    && 1 <= |turns| <= MAX_PAGES
    && Chain(turns[..|turns|-1])
    && GoodPage(turns[|turns|-1]) && turns[|turns|-1].reply.next.None?
    && |RowsOf(turns)| <= MAX_ROWS
  }

  // The collection's own limits leave room for these pages.
  ghost predicate Affordable<T>(turns: seq<Turn<T>>, calls: nat, received: nat) {
    && calls + |turns| <= MAX_CALLS
    && received + BytesOf(turns) <= MAX_TOTAL_BYTES
    && (turns != [] ==> received + BytesOf(turns[..|turns|-1]) < MAX_TOTAL_BYTES)
  }

  // Page `i` arrives in time and within every limit.
  ghost predicate Passes<T>(turns: seq<Turn<T>>, i: nat, calls: nat, received: nat) {
    && i < |turns| && GoodPage(turns[i])
    && |RowsOf(turns[..i+1])| <= MAX_ROWS
    && Affordable(turns[..i+1], calls, received)
  }

  ghost predicate Succeeds<T>(turns: seq<Turn<T>>, calls: nat, received: nat) {
    exists n: nat :: n <= |turns| && PagedToEnd(turns[..n]) && Affordable(turns[..n], calls, received)
  }

  lemma {:induction false} Prefixes<T>(turns: seq<Turn<T>>, i: nat)
    requires i <= |turns|
    ensures |RowsOf(turns[..i])| <= |RowsOf(turns)|
    ensures BytesOf(turns[..i]) <= BytesOf(turns)
    ensures i < |turns| ==> BytesOf(turns[..i]) <= BytesOf(turns[..|turns|-1])
  {
    if i == |turns| {
      assert turns[..i] == turns;
    } else {
      Prefixes(turns[..|turns|-1], i);
      assert turns[..|turns|-1][..i] == turns[..i];
    }
  }

  // A scan that ends at page `n` has passed page `i` and, unless it ends there,
  // gone on from it.
  lemma EndMeans<T>(turns: seq<Turn<T>>, i: nat, n: nat, calls: nat, received: nat)
    requires i < n <= |turns| && PagedToEnd(turns[..n]) && Affordable(turns[..n], calls, received)
    ensures Passes(turns, i, calls, received)
    ensures if i + 1 == n then turns[i].reply.next.None? else Chain(turns[..i+1]) && i + 1 < MAX_PAGES
  {
    EndPasses(turns, i, n, calls, received);
    var whole := turns[..n];
    if i + 1 < n {
      assert whole[..n-1][i] == turns[i];
      assert turns[..i+1] == whole[..n-1][..i+1];
    }
  }

  lemma EndPasses<T>(turns: seq<Turn<T>>, i: nat, n: nat, calls: nat, received: nat)
    requires i < n <= |turns| && PagedToEnd(turns[..n]) && Affordable(turns[..n], calls, received)
    ensures Passes(turns, i, calls, received)
  {
    var whole := turns[..n];
    assert whole[..i+1] == turns[..i+1] && whole[..i] == turns[..i] && turns[..i+1][..i] == turns[..i];
    Prefixes(whole, i + 1);
    Prefixes(whole, i);
    assert i < n - 1 ==> whole[..n-1][i] == turns[i];
  }

  // A scan that stops at page `i` of a chain cannot have ended.
  lemma Stuck<T>(turns: seq<Turn<T>>, i: nat, calls: nat, received: nat)
    requires i <= |turns| && Chain(turns[..i])
    requires !Passes(turns, i, calls, received) || (turns[i].reply.next.Some? && (!Chain(turns[..i+1]) || i + 1 >= MAX_PAGES))
    ensures !Succeeds(turns, calls, received)
  {
    forall n: nat | n <= |turns| && PagedToEnd(turns[..n])
      ensures !Affordable(turns[..n], calls, received)
    {
      if n > i && Affordable(turns[..n], calls, received) {
        EndMeans(turns, i, n, calls, received);
      }
    }
  }

  // What one turn adds to a scan: rows received, whether the page counts as
  // read and its rows are taken, and where it leads.
  datatype Step = Step(asked: bool, counted: bool, taken: bool, received: nat, verdict: Result<Option<string>, Code>)

  // A page is taken exactly when it is asked for within the budget and arrives
  // in time and within every limit, and kept if it also ends the scan or leads
  // somewhere new.
  method ReadPage<T>(turn: Turn<T>, received: nat, seen: set<string>, budget: Budget) returns (s: Step)
    modifies budget
    ensures s.verdict.Ok? <==> Kept(turn, received, seen, old(budget.calls), old(budget.received))
    ensures s.taken <==> Taken(turn, received, old(budget.calls), old(budget.received))
    ensures s.verdict.Ok? ==> s.verdict.value == turn.reply.next
    ensures (s.taken ==> s.counted) && (s.counted ==> s.asked && !turn.reply.Refused?)
    ensures s.received == received + (if s.counted && turn.reply.Page? then |turn.reply.rows| else 0)
    ensures budget.calls == old(budget.calls) + (if s.asked then 1 else 0)
    ensures s.asked ==> budget.calls <= MAX_CALLS
    ensures budget.received == old(budget.received) + (if s.asked && turn.reply.Page? then turn.reply.bytes else 0)
  {
    var before := budget.Before(turn.soon);
    if before.Err? {
      return Step(false, false, false, received, Err(before.error));
    }
    match turn.reply
    case Refused(code) => return Step(true, false, false, received, Err(code));
    case NotAList => return Step(true, true, false, received, Err("invalid_page"));
    case Page(rows, next, bytes) =>
      var fits := budget.Receive(bytes, turn.inTime);
      var total := received + |rows|;
      if fits.Err? {
        return Step(true, true, false, total, Err(fits.error));
      }
      if |rows| > PAGE_ITEMS || total > MAX_ROWS {
        return Step(true, true, false, total, Err("row_limit"));
      }
      if next.Some? && !GoodCursor(next.value) {
        return Step(true, true, true, total, Err("invalid_continuation"));
      }
      if next.Some? && next.value in seen {
        return Step(true, true, true, total, Err("repeated_continuation"));
      }
      return Step(true, true, true, total, Ok(next));
  }

  ghost function CursorsOf<T(!new)>(turns: seq<Turn<T>>): set<string> {
    set t | t in turns && t.reply.Page? && t.reply.next.Some? :: t.reply.next.value
  }

  // The requests made for a chain: first without a cursor, then each with the
  // cursor of the page before.
  function Requests<T>(turns: seq<Turn<T>>): seq<Option<string>> {
    if turns == [] then [None]
    else Requests(turns[..|turns|-1]) + [if turns[|turns|-1].reply.Page? then turns[|turns|-1].reply.next else None]
  }

  // Where a scan stands after the chain of its first `i` pages.
  ghost predicate Reached<T(!new)>(turns: seq<Turn<T>>, i: nat, rows: seq<T>, seen: set<string>,
                                   asked: seq<Option<string>>, continuation: Option<string>) {
    && i <= |turns| && Chain(turns[..i])
    && rows == RowsOf(turns[..i])
    && seen == CursorsOf(turns[..i])
    && asked + [continuation] == Requests(turns[..i]) && |asked| == i
  }

  // The verdicts on a page, given what was received, called and read before it.
  ghost predicate Taken<T>(turn: Turn<T>, received: nat, calls: nat, bytes: nat) {
    && bytes < MAX_TOTAL_BYTES && calls < MAX_CALLS
    && GoodPage(turn) && received + |turn.reply.rows| <= MAX_ROWS
    && bytes + turn.reply.bytes <= MAX_TOTAL_BYTES
  }

  ghost predicate Kept<T>(turn: Turn<T>, received: nat, seen: set<string>, calls: nat, bytes: nat) {
    && Taken(turn, received, calls, bytes)
    && (turn.reply.next.Some? ==> GoodCursor(turn.reply.next.value) && turn.reply.next.value !in seen)
  }

  lemma KeptPasses<T(!new)>(turns: seq<Turn<T>>, i: nat, rows: seq<T>, calls: nat, bytes: nat)
    requires i < |turns| && rows == RowsOf(turns[..i])
    requires Taken(turns[i], |rows|, calls + i, bytes + BytesOf(turns[..i]))
    ensures Passes(turns, i, calls, bytes)
    ensures BytesOf(turns[..i+1]) == BytesOf(turns[..i]) + turns[i].reply.bytes
    ensures RowsOf(turns[..i+1]) == rows + turns[i].reply.rows
  {
    assert turns[..i+1][..i] == turns[..i];
  }

  lemma KeptGoes<T(!new)>(turns: seq<Turn<T>>, i: nat, rows: seq<T>, seen: set<string>, asked: seq<Option<string>>,
                          continuation: Option<string>)
    requires Reached(turns, i, rows, seen, asked, continuation) && i < |turns| && GoodPage(turns[i])
    requires Continues(turns[i])
    requires turns[i].reply.next.value !in seen
    ensures Reached(turns, i + 1, rows + turns[i].reply.rows, seen + {turns[i].reply.next.value}, asked + [continuation],
                    turns[i].reply.next)
  {
    assert turns[..i+1][..i] == turns[..i];
    assert turns[..i+1] == turns[..i] + [turns[i]];
  }

  lemma KeptEnds<T(!new)>(turns: seq<Turn<T>>, i: nat, calls: nat, bytes: nat)
    requires i < |turns| && i < MAX_PAGES && Chain(turns[..i]) && Passes(turns, i, calls, bytes)
    requires turns[i].reply.next.None?
    ensures PagedToEnd(turns[..i+1]) && Succeeds(turns, calls, bytes)
  {
    assert turns[..i+1][..i] == turns[..i];
    assert PagedToEnd(turns[..i+1]) && Affordable(turns[..i+1], calls, bytes);
  }

  // A page that is kept passes, and leads on or ends the scan.
  lemma KeptMeans<T(!new)>(turns: seq<Turn<T>>, i: nat, rows: seq<T>, seen: set<string>,
                           asked: seq<Option<string>>, continuation: Option<string>, calls: nat, bytes: nat)
    requires Reached(turns, i, rows, seen, asked, continuation) && i < |turns|
    requires Kept(turns[i], |rows|, seen, calls + i, bytes + BytesOf(turns[..i]))
    ensures Passes(turns, i, calls, bytes)
    ensures BytesOf(turns[..i+1]) == BytesOf(turns[..i]) + turns[i].reply.bytes
    ensures turns[i].reply.next.Some? ==>
      Reached(turns, i + 1, rows + turns[i].reply.rows, seen + {turns[i].reply.next.value}, asked + [continuation], turns[i].reply.next)
    ensures turns[i].reply.next.None? && i < MAX_PAGES ==>
      && PagedToEnd(turns[..i+1]) && RowsOf(turns[..i+1]) == rows + turns[i].reply.rows
      && Succeeds(turns, calls, bytes)
  {
    KeptPasses(turns, i, rows, calls, bytes);
    if turns[i].reply.next.Some? {
      KeptGoes(turns, i, rows, seen, asked, continuation);
    } else if i < MAX_PAGES {
      KeptEnds(turns, i, calls, bytes);
    }
  }

  lemma TakenMeans<T(!new)>(turns: seq<Turn<T>>, i: nat, rows: seq<T>, calls: nat, bytes: nat)
    requires i < |turns| && rows == RowsOf(turns[..i])
    ensures Taken(turns[i], |rows|, calls + i, bytes + BytesOf(turns[..i])) <==> Passes(turns, i, calls, bytes)
    ensures RowsOf(turns[..i+1]) == rows + (if turns[i].reply.Page? then turns[i].reply.rows else [])
  {
    assert turns[..i+1][..i] == turns[..i];
  }

  // The rows a scan hands over: those of all counted pages, but for a last page
  // that did not pass.
  ghost function Handed<T(!new)>(turns: seq<Turn<T>>, pages: nat, calls: nat, bytes: nat): seq<T>
    requires pages <= |turns|
  {
    if pages == 0 || Passes(turns, pages - 1, calls, bytes) then RowsOf(turns[..pages]) else RowsOf(turns[..pages-1])
  }

  lemma NotKept<T(!new)>(turns: seq<Turn<T>>, i: nat, rows: seq<T>, seen: set<string>,
                         asked: seq<Option<string>>, continuation: Option<string>, calls: nat, bytes: nat)
    requires Reached(turns, i, rows, seen, asked, continuation)
    requires i < |turns| ==> !Kept(turns[i], |rows|, seen, calls + i, bytes + BytesOf(turns[..i]))
    ensures !Succeeds(turns, calls, bytes)
  {
    if i < |turns| {
      assert turns[..i+1][..i] == turns[..i];
    }
    Stuck(turns, i, calls, bytes);
  }

  // What a scan says of the answers it met: it is complete exactly when they
  // page to an end within all limits, and then holds all their rows; otherwise
  // it says why, and holds the rows of the pages that passed.
  ghost predicate Reports<T(!new)>(r: Scan<T>, turns: seq<Turn<T>>, calls: nat, bytes: nat) {
    && (r.complete <==> Succeeds(turns, calls, bytes)) && (r.complete <==> r.issues == {})
    && r.pages <= |turns|
    && (r.complete ==> PagedToEnd(turns[..r.pages]) && r.rows == RowsOf(turns[..r.pages]))
    && r.received == |RowsOf(turns[..r.pages])|
    && r.rows == Handed(turns, r.pages, calls, bytes)
    && |r.rows| <= r.received
  }

  // The scan that stops on a page.
  function StoppedScan<T>(i: nat, rows: seq<T>, turn: Turn<T>, s: Step): Scan<T>
    requires s.verdict.Err? && (s.taken ==> turn.reply.Page?)
  {
    Scan(if s.taken then rows + turn.reply.rows else rows, if s.counted then i + 1 else i, s.received, false, {s.verdict.error})
  }

  lemma StoppedRows<T(!new)>(turns: seq<Turn<T>>, i: nat, rows: seq<T>, calls: nat, bytes: nat, turn: Turn<T>, s: Step)
    requires i <= |turns| && rows == RowsOf(turns[..i]) && (i > 0 ==> Passes(turns, i - 1, calls, bytes))
    requires turn == if i < |turns| then turns[i] else Turn(true, Refused("source_unavailable"), true)
    requires s.verdict.Err?
    requires s.taken <==> Taken(turn, |rows|, calls + i, bytes + BytesOf(turns[..i]))
    requires (s.taken ==> s.counted) && (s.counted ==> !turn.reply.Refused?)
    requires s.received == |rows| + (if s.counted && turn.reply.Page? then |turn.reply.rows| else 0)
    ensures var r := StoppedScan(i, rows, turn, s);
      && r.pages <= |turns| && r.received == |RowsOf(turns[..r.pages])|
      && r.rows == Handed(turns, r.pages, calls, bytes) && |r.rows| <= r.received
  {
    if s.counted {
      TakenMeans(turns, i, rows, calls, bytes);
    }
  }

  // A scan that stops on a page reports truly, whether or not its rows are taken.
  lemma StoppedReports<T(!new)>(turns: seq<Turn<T>>, i: nat, rows: seq<T>, seen: set<string>,
                                asked: seq<Option<string>>,
                                continuation: Option<string>, calls: nat, bytes: nat, turn: Turn<T>, s: Step)
    requires Reached(turns, i, rows, seen, asked, continuation) && (i > 0 ==> Passes(turns, i - 1, calls, bytes))
    requires turn == if i < |turns| then turns[i] else Turn(true, Refused("source_unavailable"), true)
    requires s.verdict.Err? && !Kept(turn, |rows|, seen, calls + i, bytes + BytesOf(turns[..i]))
    requires s.taken <==> Taken(turn, |rows|, calls + i, bytes + BytesOf(turns[..i]))
    requires (s.taken ==> s.counted) && (s.counted ==> !turn.reply.Refused?)
    requires s.received == |rows| + (if s.counted && turn.reply.Page? then |turn.reply.rows| else 0)
    ensures Reports(StoppedScan(i, rows, turn, s), turns, calls, bytes) && !StoppedScan(i, rows, turn, s).complete
  {
    NotKept(turns, i, rows, seen, asked, continuation, calls, bytes);
    StoppedRows(turns, i, rows, calls, bytes, turn, s);
  }

  // What was asked of the service: the requests of some chain of its answers,
  // or all of them but the last few.
  ghost predicate InStep<T>(asked: seq<Option<string>>, turns: seq<Turn<T>>) {
    exists n: nat :: n <= |turns| && Chain(turns[..n]) && asked <= Requests(turns[..n])
  }

  // What a scan has in hand after some pages.
  datatype Hand<T> = Hand(rows: seq<T>, seen: set<string>, asked: seq<Option<string>>, continuation: Option<string>)

  ghost predicate Going<T(!new)>(turns: seq<Turn<T>>, i: nat, h: Hand<T>, calls: nat, bytes: nat, spent: nat,
                                 received: nat) {
    && Reached(turns, i, h.rows, h.seen, h.asked, h.continuation)
    && (i > 0 ==> Passes(turns, i - 1, calls, bytes) && spent <= MAX_CALLS)
    && spent == calls + i && received == bytes + BytesOf(turns[..i])
  }

  // A scan that is over, and what it asked and spent.
  ghost predicate Over<T(!new)>(turns: seq<Turn<T>>, r: Scan<T>, asked: seq<Option<string>>, calls: nat, bytes: nat,
                                spent: nat, received: nat) {
    && Reports(r, turns, calls, bytes)
    && |asked| <= MAX_PAGES && InStep(asked, turns)
    && spent == calls + |asked| && (asked != [] ==> spent <= MAX_CALLS)
    && (r.complete ==> |asked| == r.pages && received == bytes + BytesOf(turns[..r.pages]))
  }

  // One page more, or the end of the scan.
  method NextPage<T(!new)>(turns: seq<Turn<T>>, i: nat, h: Hand<T>, budget: Budget, ghost calls: nat, ghost bytes: nat)
    returns (end: Option<(Scan<T>, seq<Option<string>>)>, next: Hand<T>)
    requires i < MAX_PAGES && Going(turns, i, h, calls, bytes, budget.calls, budget.received)
    modifies budget
    ensures end.None? ==> Going(turns, i + 1, next, calls, bytes, budget.calls, budget.received)
    ensures end.Some? ==> Over(turns, end.value.0, end.value.1, calls, bytes, budget.calls, budget.received)
  {
    next := h;
    assert h.asked <= h.asked + [h.continuation] <= Requests(turns[..i]);
    var turn := if i < |turns| then turns[i] else Turn(true, Refused("source_unavailable"), true);
    var step := ReadPage(turn, |h.rows|, h.seen, budget);
    if step.verdict.Err? {
      StoppedReports(turns, i, h.rows, h.seen, h.asked, h.continuation, calls, bytes, turn, step);
      return Some((StoppedScan(i, h.rows, turn, step), if step.asked then h.asked + [h.continuation] else h.asked)), next;
    }
    KeptMeans(turns, i, h.rows, h.seen, h.asked, h.continuation, calls, bytes);
    next := Hand(h.rows + turn.reply.rows, h.seen, h.asked + [h.continuation], step.verdict.value);
    if next.continuation.None? {
      return Some((Scan(next.rows, i + 1, step.received, true, {}), next.asked)), next;
    }
    next := next.(seen := h.seen + {next.continuation.value});
    end := None;
  }

  // Asks for page after page, each with the cursor of the one before.
  method ScanPages<T(!new)>(turns: seq<Turn<T>>, budget: Budget) returns (r: Scan<T>, asked: seq<Option<string>>)
    modifies budget
    ensures Reports(r, turns, old(budget.calls), old(budget.received))
    ensures |asked| <= MAX_PAGES && InStep(asked, turns)
    ensures budget.calls == old(budget.calls) + |asked| && (asked != [] ==> budget.calls <= MAX_CALLS)
    ensures r.complete ==> |asked| == r.pages && budget.received == old(budget.received) + BytesOf(turns[..r.pages])
  {
    ghost var calls, bytes := budget.calls, budget.received;
    var h: Hand<T> := Hand([], {}, [], None);
    for i := 0 to MAX_PAGES
      invariant Going(turns, i, h, calls, bytes, budget.calls, budget.received)
    {
      var end;
      end, h := NextPage(turns, i, h, budget, calls, bytes);
      if end.Some? {
        return end.value.0, end.value.1;
      }
    }
    assert h.asked <= h.asked + [h.continuation];
    return Scan(h.rows, MAX_PAGES, |h.rows|, false, {"page_limit"}), h.asked;
  }
}
