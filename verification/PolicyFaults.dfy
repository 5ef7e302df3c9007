// The recogniser once more, now saying what is wrong and where: the construct
// that is not closed, and the literals and block comments opened up to there,
// the last of which is where the scanner says that the construct starts.
module PolicyFaults {
  import opened Wrappers
  import opened PolicyExpressions

  datatype Refusal =
    | Forbidden
    | TooLong
    | UnterminatedString(at: nat)
    | UnterminatedChar(at: nat)
    | UnterminatedComment(at: nat)
    | Unmatched(bracket: char, at: nat)

  // Text read up to `j`, or what is wrong with it; `starts` are the starts of
  // the literals and block comments met so far, in order.
  datatype Reading = Read(j: nat, starts: seq<nat>) | Fault(refusal: Refusal, starts: seq<nat>)

  function Ended(r: Reading): Option<nat> {
    match r
    case Read(j, _) => Some(j)
    case Fault(_, _) => None
  }

  function ReadBlock(s: string, i: nat, origin: nat, starts: seq<nat>): (r: Reading)
    ensures Ended(r) == BlockComment(s, i) && r.starts == starts
    ensures r.Fault? ==> r.refusal == UnterminatedComment(origin)
    decreases |s| - i
  {
    if i >= |s| then Fault(UnterminatedComment(origin), starts)
    else if Pair(s, i, '*', '/') then Read(i + 2, starts)
    else ReadBlock(s, i + 1, origin, starts)
  }

  function ReadQuoted(s: string, i: nat, quote: char, origin: nat, starts: seq<nat>): (r: Reading)
    ensures Ended(r) == Quoted(s, i, quote) && r.starts == starts
    ensures r.Fault? ==> r.refusal == if quote == '"' then UnterminatedString(origin) else UnterminatedChar(origin)
    decreases |s| - i
  {
    if i < |s| && s[i] == '\\' then ReadQuoted(s, i + 2, quote, origin, starts)
    else if i < |s| && s[i] == quote then Read(i + 1, starts)
    else if i >= |s| || NewLine(s[i]) then
      Fault(if quote == '"' then UnterminatedString(origin) else UnterminatedChar(origin), starts)
    else ReadQuoted(s, i + 1, quote, origin, starts)
  }

  function ReadVerbatim(s: string, i: nat, origin: nat, starts: seq<nat>): (r: Reading)
    ensures Ended(r) == Verbatim(s, i) && r.starts == starts
    ensures r.Fault? ==> r.refusal == UnterminatedString(origin)
    decreases |s| - i
  {
    if i >= |s| then Fault(UnterminatedString(origin), starts)
    else if Pair(s, i, '"', '"') then ReadVerbatim(s, i + 2, origin, starts)
    else if s[i] == '"' then Read(i + 1, starts)
    else ReadVerbatim(s, i + 1, origin, starts)
  }

  function ReadInterpolated(s: string, i: nat, verbatim: bool, origin: nat, starts: seq<nat>): (r: Reading)
    ensures Ended(r) == Interpolated(s, i, verbatim) && starts <= r.starts
    decreases |s| - i
  {
    if i >= |s| then Fault(UnterminatedString(origin), starts)
    else if (if verbatim then Pair(s, i, '"', '"') else s[i] == '\\') then
      ReadInterpolated(s, i + 2, verbatim, origin, starts)
    else if Pair(s, i, '{', '{') || Pair(s, i, '}', '}') then ReadInterpolated(s, i + 2, verbatim, origin, starts)
    else if s[i] == '{' then
      match ReadCode(s, i + 1, starts)
      case Fault(f, o) => Fault(f, o)
      case Read(j, o) =>
        if Is(s, j, '}') then ReadInterpolated(s, j + 1, verbatim, origin, o)
        else Fault(NotClosing(s, j, '{', i), o)
    else if s[i] == '}' then Fault(Unmatched('}', i), starts)
    else if s[i] == '"' then Read(i + 1, starts)
    else if !verbatim && NewLine(s[i]) then Fault(UnterminatedString(origin), starts)
    else ReadInterpolated(s, i + 1, verbatim, origin, starts)
  }

  // What is wrong when the code after the bracket at `at` ends at `j`.
  function NotClosing(s: string, j: nat, open: char, at: nat): Refusal {
    if j < |s| then Unmatched(s[j], j) else Unmatched(open, at)
  }

  function ReadCode(s: string, i: nat, starts: seq<nat>): (r: Reading)
    ensures Ended(r) == Code(s, i) && starts <= r.starts
    decreases |s| - i
  {
    if i >= |s| then Read(|s|, starts)
    else if Closer(s[i]) then Read(i, starts)
    else if Opener(s[i]) then
      match ReadCode(s, i + 1, starts)
      case Fault(f, o) => Fault(f, o)
      case Read(j, o) =>
        if Is(s, j, ClosingOf(s[i])) then ReadCode(s, j + 1, o) else Fault(NotClosing(s, j, s[i], i), o)
    else
      match ReadToken(s, i, starts)
      case Fault(f, o) => Fault(f, o)
      case Read(j, o) => ReadCode(s, j, o)
  }

  function ReadToken(s: string, i: nat, starts: seq<nat>): (r: Reading)
    requires i < |s|
    ensures Ended(r) == Token(s, i) && starts <= r.starts
    decreases |s| - i, 0
  {
    if Pair(s, i, '/', '/') then Read(LineComment(s, i + 2), starts)
    else if Pair(s, i, '/', '*') then ReadBlock(s, i + 2, i, starts + [i])
    else if (Pair(s, i, '$', '@') || Pair(s, i, '@', '$')) && Is(s, i + 2, '"') then
      ReadInterpolated(s, i + 3, true, i, starts + [i])
    else if Pair(s, i, '@', '"') then ReadVerbatim(s, i + 2, i, starts + [i])
    else if Pair(s, i, '$', '"') then ReadInterpolated(s, i + 2, false, i, starts + [i])
    else if s[i] == '"' then ReadQuoted(s, i + 1, '"', i, starts + [i])
    else if s[i] == '\'' then ReadQuoted(s, i + 1, '\'', i, starts + [i])
    else Read(i + 1, starts)
  }

  // The whole text read, or what is wrong with it.
  function Verdict(s: string): (r: Reading)
    ensures r.Read? <==> Recognised(s)
  {
    match ReadCode(s, 0, [])
    case Fault(f, o) => Fault(f, o)
    case Read(j, o) => if j < |s| then Fault(Unmatched(s[j], j), o) else Read(j, o)
  }

  // ----- What was opened before changes nothing but the list

  function After(before: seq<nat>, r: Reading): Reading {
    match r
    case Read(j, starts) => Read(j, before + starts)
    case Fault(f, starts) => Fault(f, before + starts)
  }

  lemma Joins(a: seq<nat>, b: seq<nat>, r: Reading)
    ensures After(a, After(b, r)) == After(a + b, r)
  {
    assert a + (b + r.starts) == a + b + r.starts;
  }

  lemma {:induction false} ShiftInterpolated(s: string, i: nat, verbatim: bool, origin: nat, starts: seq<nat>)
    ensures ReadInterpolated(s, i, verbatim, origin, starts) == After(starts, ReadInterpolated(s, i, verbatim, origin, []))
    decreases |s| - i, 0
  {
    if i >= |s| {
    } else if (if verbatim then Pair(s, i, '"', '"') else s[i] == '\\') {
      ShiftInterpolated(s, i + 2, verbatim, origin, starts);
    } else if Pair(s, i, '{', '{') || Pair(s, i, '}', '}') {
      ShiftInterpolated(s, i + 2, verbatim, origin, starts);
    } else if s[i] == '{' {
      var inner := ReadCode(s, i + 1, []);
      ShiftCode(s, i + 1, starts);
      if inner.Read? && Is(s, inner.j, '}') {
        ShiftMore(s, inner.j + 1, verbatim, origin, starts, inner.starts);
      }
    } else if s[i] == '}' || s[i] == '"' || (!verbatim && NewLine(s[i])) {
    } else {
      ShiftInterpolated(s, i + 1, verbatim, origin, starts);
    }
  }

  lemma {:induction false} ShiftMore(s: string, i: nat, verbatim: bool, origin: nat, starts: seq<nat>, more: seq<nat>)
    ensures ReadInterpolated(s, i, verbatim, origin, starts + more)
         == After(starts, ReadInterpolated(s, i, verbatim, origin, more))
    decreases |s| - i, 1
  {
    ShiftInterpolated(s, i, verbatim, origin, starts + more);
    ShiftInterpolated(s, i, verbatim, origin, more);
    Joins(starts, more, ReadInterpolated(s, i, verbatim, origin, []));
  }

  lemma {:induction false} ShiftCode(s: string, i: nat, starts: seq<nat>)
    ensures ReadCode(s, i, starts) == After(starts, ReadCode(s, i, []))
    decreases |s| - i, 1
  {
    if i >= |s| || Closer(s[i]) {
    } else if Opener(s[i]) {
      var inner := ReadCode(s, i + 1, []);
      ShiftCode(s, i + 1, starts);
      if inner.Read? && Is(s, inner.j, ClosingOf(s[i])) {
        ShiftRest(s, inner.j + 1, starts, inner.starts);
      }
    } else {
      var token := ReadToken(s, i, []);
      ShiftToken(s, i, starts);
      if token.Read? {
        ShiftRest(s, token.j, starts, token.starts);
      }
    }
  }

  lemma {:induction false} ShiftRest(s: string, j: nat, starts: seq<nat>, more: seq<nat>)
    ensures ReadCode(s, j, starts + more) == After(starts, ReadCode(s, j, more))
    decreases |s| - j, 2
  {
    ShiftCode(s, j, starts + more);
    ShiftCode(s, j, more);
    Joins(starts, more, ReadCode(s, j, []));
  }

  lemma {:induction false} ShiftToken(s: string, i: nat, starts: seq<nat>)
    requires i < |s|
    ensures ReadToken(s, i, starts) == After(starts, ReadToken(s, i, []))
    decreases |s| - i, 0
  {
    assert [] + [i] == [i];
    if (Pair(s, i, '$', '@') || Pair(s, i, '@', '$')) && Is(s, i + 2, '"') {
      ShiftMore(s, i + 3, true, i, starts, [i]);
    } else if Pair(s, i, '$', '"') && !Pair(s, i, '@', '"') {
      ShiftMore(s, i + 2, false, i, starts, [i]);
    } else {
      assert ReadToken(s, i, []).starts == [] || ReadToken(s, i, []).starts == [i];
    }
  }

  // ----- Which construct is to blame

  predicate StringStart(s: string, i: nat) {
    Is(s, i, '"') || Pair(s, i, '@', '"') || HoledStart(s, i)
  }

  predicate HoledStart(s: string, i: nat) {
    Pair(s, i, '$', '"') || ((Pair(s, i, '$', '@') || Pair(s, i, '@', '$')) && Is(s, i + 2, '"'))
  }

  predicate Closed(s: string, i: nat) { i < |s| && Token(s, i).Some? }

  predicate Unclosed(s: string, i: nat) { i < |s| && Token(s, i).None? }

  // Of the constructs opened from the n-th on, the one at `o` is the last that
  // does not close, and whatever was opened after it was opened in its holes.
  ghost predicate LastUnclosed(s: string, n: nat, starts: seq<nat>, o: nat) {
    && Unclosed(s, o)
    && exists q :: n <= q < |starts| && starts[q] == o && AllClosed(s, q + 1, starts) && starts[q+1..] == InHoles(s, o)
  }

  // The literals and block comments opened in the holes of the literal at `o`.
  function InHoles(s: string, o: nat): seq<nat> {
    if o < |s| && ReadToken(s, o, []).starts != [] then ReadToken(s, o, []).starts[1..] else []
  }

  predicate Opens(s: string, i: nat) {
    StringStart(s, i) || Is(s, i, '\'') || Pair(s, i, '/', '*')
  }

  lemma OpensItself(s: string, o: nat)
    requires o < |s| && Opens(s, o)
    ensures [o] <= ReadToken(s, o, []).starts
  {
    assert [] + [o] == [o];
  }

  lemma StartsWithItself(s: string, o: nat, before: seq<nat>)
    requires o < |s| && Opens(s, o)
    ensures ReadToken(s, o, before).starts == before + [o] + InHoles(s, o)
  {
    OpensItself(s, o);
    ShiftToken(s, o, before);
    AfterFirst(before, o, ReadToken(s, o, []));
  }

  lemma AfterFirst(before: seq<nat>, o: nat, r: Reading)
    requires [o] <= r.starts
    ensures After(before, r).starts == before + [o] + r.starts[1..]
  {
    assert r.starts == [o] + r.starts[1..];
  }

  // A literal or comment whose reading fails there and then is to blame.
  lemma Blamed(s: string, n: nat, starts: seq<nat>)
    requires n < |starts| && starts[n] < |s| && Opens(s, starts[n]) && AllClosed(s, n + 1, starts)
    requires ReadToken(s, starts[n], starts[..n]).Fault? && ReadToken(s, starts[n], starts[..n]).starts == starts
    ensures LastUnclosed(s, n, starts, starts[n])
  {
    StartsWithItself(s, starts[n], starts[..n]);
    assert starts[n+1..] == InHoles(s, starts[n]);
  }

  ghost predicate AllClosed(s: string, n: nat, starts: seq<nat>) {
    forall k :: n <= k < |starts| ==> Closed(s, starts[k])
  }

  ghost predicate Ascending(starts: seq<nat>) {
    forall k, l :: 0 <= k < l < |starts| ==> starts[k] < starts[l]
  }

  ghost predicate Below(starts: seq<nat>, i: nat) {
    forall k :: 0 <= k < |starts| ==> starts[k] < i
  }

  ghost predicate InOrder(r: Reading) {
    Ascending(r.starts) && (r.Read? ==> Below(r.starts, r.j))
  }

  // A refusal names the construct that is to blame.
  ghost predicate Blames(s: string, n: nat, starts: seq<nat>, f: Refusal) {
    match f
    case UnterminatedString(o) => LastUnclosed(s, n, starts, o) && StringStart(s, o) && (HoledStart(s, o) || AtLast(starts, o))
    case UnterminatedChar(o) => LastUnclosed(s, n, starts, o) && Is(s, o, '\'') && AtLast(starts, o)
    case UnterminatedComment(o) => LastUnclosed(s, n, starts, o) && Pair(s, o, '/', '*') && AtLast(starts, o)
    case Unmatched(c, at) => Is(s, at, c) && (Opener(c) || Closer(c))
    case _ => false
  }

  predicate AtLast(starts: seq<nat>, o: nat) {
    starts != [] && starts[|starts|-1] == o
  }

  ghost predicate Told(s: string, n: nat, r: Reading) {
    match r
    case Read(_, starts) => AllClosed(s, n, starts)
    case Fault(f, starts) => Blames(s, n, starts, f)
  }

  lemma {:induction false} Earlier(s: string, m: nat, n: nat, r: Reading)
    requires m <= n <= |r.starts| && Told(s, n, r) && forall k :: m <= k < n ==> Closed(s, r.starts[k])
    ensures Told(s, m, r)
  {
  }

  // The literal at `starts[n]`, read up to here.
  ghost predicate Inside(s: string, i: nat, verbatim: bool, n: nat, starts: seq<nat>) {
    && n < |starts| && starts[n] < |s| && HoledStart(s, starts[n]) && AllClosed(s, n + 1, starts)
    && ReadToken(s, starts[n], starts[..n]) == ReadInterpolated(s, i, verbatim, starts[n], starts)
  }

  lemma {:induction false} TellInterpolated(s: string, i: nat, verbatim: bool, n: nat, starts: seq<nat>)
    requires Inside(s, i, verbatim, n, starts)
    ensures Told(s, n, ReadInterpolated(s, i, verbatim, starts[n], starts))
    decreases |s| - i
  {
    var r := ReadInterpolated(s, i, verbatim, starts[n], starts);
    if r == Fault(UnterminatedString(starts[n]), starts) {
      Blamed(s, n, starts);
    } else if i >= |s| {
    } else if (if verbatim then Pair(s, i, '"', '"') else s[i] == '\\') {
      TellInterpolated(s, i + 2, verbatim, n, starts);
    } else if Pair(s, i, '{', '{') || Pair(s, i, '}', '}') {
      TellInterpolated(s, i + 2, verbatim, n, starts);
    } else if s[i] == '{' {
      TellHole(s, i, verbatim, n, starts);
    } else if s[i] == '}' || s[i] == '"' || (!verbatim && NewLine(s[i])) {
    } else {
      TellInterpolated(s, i + 1, verbatim, n, starts);
    }
  }

  lemma {:induction false} TellHole(s: string, i: nat, verbatim: bool, n: nat, starts: seq<nat>)
    requires Inside(s, i, verbatim, n, starts)
    requires i < |s| && s[i] == '{' && !Pair(s, i, '{', '{') && (!verbatim || !Pair(s, i, '"', '"'))
    ensures Told(s, n, ReadInterpolated(s, i, verbatim, starts[n], starts))
    decreases |s| - i, 0
  {
    var inner := ReadCode(s, i + 1, starts);
    TellCode(s, i + 1, starts);
    if inner.Read? && Is(s, inner.j, '}') {
      assert inner.starts[n] == starts[n] && inner.starts[..n] == starts[..n];
      TellInterpolated(s, inner.j + 1, verbatim, n, inner.starts);
    }
  }

  lemma {:induction false} TellCode(s: string, i: nat, starts: seq<nat>)
    ensures Told(s, |starts|, ReadCode(s, i, starts))
    decreases |s| - i
  {
    if i >= |s| || Closer(s[i]) {
    } else if Opener(s[i]) {
      var inner := ReadCode(s, i + 1, starts);
      TellCode(s, i + 1, starts);
      if inner.Read? && Is(s, inner.j, ClosingOf(s[i])) {
        TellCode(s, inner.j + 1, inner.starts);
        Earlier(s, |starts|, |inner.starts|, ReadCode(s, inner.j + 1, inner.starts));
      }
    } else {
      var token := ReadToken(s, i, starts);
      TellToken(s, i, starts);
      if token.Read? {
        TellCode(s, token.j, token.starts);
        Earlier(s, |starts|, |token.starts|, ReadCode(s, token.j, token.starts));
      }
    }
  }

  lemma {:induction false} TellToken(s: string, i: nat, starts: seq<nat>)
    requires i < |s|
    ensures Told(s, |starts|, ReadToken(s, i, starts))
    decreases |s| - i, 0
  {
    var n, more := |starts|, starts + [i];
    assert more[n] == i && more[..n] == starts;
    if Pair(s, i, '/', '/') {
    } else if Pair(s, i, '/', '*') {
      TellLeaf(s, i, starts);
    } else if (Pair(s, i, '$', '@') || Pair(s, i, '@', '$')) && Is(s, i + 2, '"') {
      TellInterpolated(s, i + 3, true, n, more);
    } else if Pair(s, i, '@', '"') {
      TellLeaf(s, i, starts);
    } else if Pair(s, i, '$', '"') {
      TellInterpolated(s, i + 2, false, n, more);
    } else if s[i] == '"' || s[i] == '\'' {
      TellLeaf(s, i, starts);
    }
  }

  // Comments and literals without holes.
  lemma {:induction false} TellLeaf(s: string, i: nat, starts: seq<nat>)
    requires i < |s| && Opens(s, i) && !HoledStart(s, i)
    ensures Told(s, |starts|, ReadToken(s, i, starts))
  {
    var n, more := |starts|, starts + [i];
    assert more[n] == i && more[..n] == starts;
    assert ReadToken(s, i, starts).starts == more;
    if ReadToken(s, i, starts).Fault? {
      Blamed(s, n, more);
    }
  }

  lemma {:induction false} OrderInterpolated(s: string, i: nat, verbatim: bool, origin: nat, starts: seq<nat>)
    requires Ascending(starts) && Below(starts, i)
    ensures InOrder(ReadInterpolated(s, i, verbatim, origin, starts))
    decreases |s| - i
  {
    if i >= |s| {
    } else if (if verbatim then Pair(s, i, '"', '"') else s[i] == '\\') {
      OrderInterpolated(s, i + 2, verbatim, origin, starts);
    } else if Pair(s, i, '{', '{') || Pair(s, i, '}', '}') {
      OrderInterpolated(s, i + 2, verbatim, origin, starts);
    } else if s[i] == '{' {
      var inner := ReadCode(s, i + 1, starts);
      OrderCode(s, i + 1, starts);
      if inner.Read? && Is(s, inner.j, '}') {
        OrderInterpolated(s, inner.j + 1, verbatim, origin, inner.starts);
      }
    } else if s[i] == '}' || s[i] == '"' || (!verbatim && NewLine(s[i])) {
    } else {
      OrderInterpolated(s, i + 1, verbatim, origin, starts);
    }
  }

  lemma {:induction false} OrderCode(s: string, i: nat, starts: seq<nat>)
    requires i <= |s| && Ascending(starts) && Below(starts, i)
    ensures InOrder(ReadCode(s, i, starts))
    decreases |s| - i
  {
    if i >= |s| || Closer(s[i]) {
    } else if Opener(s[i]) {
      var inner := ReadCode(s, i + 1, starts);
      OrderCode(s, i + 1, starts);
      if inner.Read? && Is(s, inner.j, ClosingOf(s[i])) {
        OrderCode(s, inner.j + 1, inner.starts);
      }
    } else {
      var token := ReadToken(s, i, starts);
      OrderToken(s, i, starts);
      if token.Read? {
        OrderCode(s, token.j, token.starts);
      }
    }
  }

  lemma {:induction false} OrderToken(s: string, i: nat, starts: seq<nat>)
    requires i < |s| && Ascending(starts) && Below(starts, i)
    ensures InOrder(ReadToken(s, i, starts))
    decreases |s| - i, 0
  {
    if Pair(s, i, '/', '/') || Pair(s, i, '/', '*') {
    } else if (Pair(s, i, '$', '@') || Pair(s, i, '@', '$')) && Is(s, i + 2, '"') {
      OrderInterpolated(s, i + 3, true, i, starts + [i]);
    } else if Pair(s, i, '@', '"') {
    } else if Pair(s, i, '$', '"') {
      OrderInterpolated(s, i + 2, false, i, starts + [i]);
    }
  }

  // ----- The position that the scanner reports

  function Latest(starts: seq<nat>): nat {
    if starts == [] then 0 else starts[|starts|-1]
  }

  // The start is not restored when a hole closes, so the one reported is that of
  // the literal or block comment opened last.
  function Reported(f: Refusal, starts: seq<nat>): Refusal {
    match f
    case UnterminatedString(_) => UnterminatedString(Latest(starts))
    case UnterminatedChar(_) => UnterminatedChar(Latest(starts))
    case UnterminatedComment(_) => UnterminatedComment(Latest(starts))
    case _ => f
  }

  // The refusal names the construct to blame; what is opened after it lies
  // behind it and closes.
  lemma {:induction false} VerdictBlames(s: string)
    requires Verdict(s).Fault?
    ensures Blames(s, 0, Verdict(s).starts, Verdict(s).refusal) && Ascending(Verdict(s).starts)
  {
    TellCode(s, 0, []);
    OrderCode(s, 0, []);
  }

  // An unterminated string is reported where it starts exactly when no literal or
  // block comment was opened in its holes; otherwise the report names the last
  // of these, all of which are closed.
  lemma {:induction false} ReportedAtStart(s: string, o: nat)
    requires Verdict(s).Fault? && Verdict(s).refusal == UnterminatedString(o)
    ensures var starts, at := Verdict(s).starts, Latest(Verdict(s).starts);
            && Unclosed(s, o) && StringStart(s, o) && o in starts
            && (forall p :: p in InHoles(s, o) ==> o < p && Closed(s, p))
            && (at == o <==> InHoles(s, o) == [])
            && (at != o ==> at in InHoles(s, o) && HoledStart(s, o))
  {
    VerdictBlames(s);
    LastOfAll(s, Verdict(s).starts, o);
  }

  lemma {:induction false} LastOfAll(s: string, starts: seq<nat>, o: nat)
    requires LastUnclosed(s, 0, starts, o) && Ascending(starts)
    ensures o in starts && forall p :: p in InHoles(s, o) ==> o < p && Closed(s, p)
    ensures if InHoles(s, o) == [] then Latest(starts) == o else Latest(starts) in InHoles(s, o)
  {
    var q :| 0 <= q < |starts| && starts[q] == o && AllClosed(s, q + 1, starts) && starts[q+1..] == InHoles(s, o);
    forall p | p in InHoles(s, o) ensures o < p && Closed(s, p) {
      var k :| 0 <= k < |starts| - q - 1 && starts[q+1..][k] == p;
      assert p == starts[q + 1 + k];
    }
    if InHoles(s, o) != [] {
      assert starts[|starts|-1] == starts[q+1..][|starts|-q-2];
    }
  }

  // Characters and comments have no holes: they are reported where they start.
  lemma {:induction false} OthersReportedTruly(s: string)
    requires Verdict(s).Fault? && !Verdict(s).refusal.UnterminatedString?
    ensures Reported(Verdict(s).refusal, Verdict(s).starts) == Verdict(s).refusal
  {
    VerdictBlames(s);
  }

  // $"{"a"} and a line end: the string at 0 is reported at 3, where the closed
  // string "a" starts.
  const OPEN_STRING := "$\"{\"a\"}\n"

  lemma {:induction false} HoleReads(s: string)
    requires s == OPEN_STRING
    ensures ReadToken(s, 3, [0]) == Read(6, [0, 3]) && ReadCode(s, 3, [0]) == Read(6, [0, 3])
  {
    assert ReadQuoted(s, 4, '"', 3, [0, 3]) == Read(6, [0, 3]);
    assert ReadCode(s, 6, [0, 3]) == Read(6, [0, 3]);
  }

  lemma {:induction false} StringReads(s: string)
    requires s == OPEN_STRING
    ensures ReadToken(s, 0, []) == Fault(UnterminatedString(0), [0, 3])
  {
    HoleReads(s);
    assert ReadInterpolated(s, 7, false, 0, [0, 3]) == Fault(UnterminatedString(0), [0, 3]);
  }

  lemma {:induction false} WrongStart()
    ensures Verdict(OPEN_STRING) == Fault(UnterminatedString(0), [0, 3])
    ensures Reported(UnterminatedString(0), [0, 3]) == UnterminatedString(3)
    ensures Unclosed(OPEN_STRING, 0) && Closed(OPEN_STRING, 3)
  {
    HoleReads(OPEN_STRING);
    StringReads(OPEN_STRING);
  }
}
