// The one-pass scanner with an explicit stack: it accepts what the recogniser
// accepts, and refuses with the recogniser's verdict, except that it reports
// the literal or block comment opened last.
module PolicyScanner {
  import opened Wrappers
  import opened PolicyExpressions
  import opened PolicyFaults

  datatype State =
    | InCode
    | InLineComment
    | InBlockComment
    | InString
    | InChar
    | InVerbatim
    | InInterpolated(verbatim: bool)

  // An open bracket: where it is, and the literal to return to when it opened
  // an interpolation hole.
  datatype Frame = Frame(open: char, at: nat, resume: Option<State>)

  // What the scanner carries from one turn to the next.
  datatype Config = Config(i: nat, state: State, stack: seq<Frame>, start: nat)

  // What it forgets: where the current literal and those on the stack start,
  // and every start so far.
  datatype Trail = Trail(origin: nat, outer: seq<nat>, starts: seq<nat>)

  function Back(f: Frame): State {
    if f.resume.Some? then f.resume.value else InCode
  }

  // What the recogniser makes of the rest of the literal or comment.
  function Finish(s: string, i: nat, state: State, origin: nat, starts: seq<nat>): Reading {
    match state
    case InCode => Read(i, starts)
    case InLineComment => Read(if i <= |s| then LineComment(s, i) else i, starts)
    case InBlockComment => ReadBlock(s, i, origin, starts)
    case InString => ReadQuoted(s, i, '"', origin, starts)
    case InChar => ReadQuoted(s, i, '\'', origin, starts)
    case InVerbatim => ReadVerbatim(s, i, origin, starts)
    case InInterpolated(v) => ReadInterpolated(s, i, v, origin, starts)
  }

  // The recogniser's verdict with the stack of pending calls made explicit.
  function Expect(s: string, i: nat, state: State, stack: seq<Frame>, t: Trail): Reading
    requires |t.outer| == |stack|
    decreases |stack|, 1
  {
    match Finish(s, i, state, t.origin, t.starts)
    case Fault(f, starts) => Fault(f, starts)
    case Read(j, starts) => Unwind(s, ReadCode(s, j, starts), stack, t.outer)
  }

  function Unwind(s: string, r: Reading, stack: seq<Frame>, outer: seq<nat>): Reading
    requires |outer| == |stack|
    decreases |stack|, 0
  {
    match r
    case Fault(f, starts) => r
    case Read(k, starts) =>
      if stack == [] then if k < |s| then Fault(Unmatched(s[k], k), starts) else r
      else
        var top := stack[|stack|-1];
        if Is(s, k, ClosingOf(top.open)) then
          Expect(s, k + 1, Back(top), stack[..|stack|-1], Trail(outer[|stack|-1], outer[..|stack|-1], starts))
        else Fault(NotClosing(s, k, top.open, top.at), starts)
  }

  ghost predicate Good(s: string, c: Config, t: Trail) {
    && |t.outer| == |c.stack|
    && Expect(s, c.i, c.state, c.stack, t) == Verdict(s)
    && c.start == Latest(t.starts)
    && (c.state.InCode? || c.state.InLineComment? ==> c.i <= |s|)
  }

  predicate Tells(e: Refusal, r: Reading) {
    r.Fault? && e == Reported(r.refusal, r.starts)
  }

  // One turn inside a comment or literal: the new position and state, and
  // whether an interpolation hole opens there.
  method ScanInside(s: string, i: nat, state: State, start: nat, ghost origin: nat, ghost starts: seq<nat>)
    returns (r: Result<(nat, State, bool), Refusal>)
    requires i < |s| && !state.InCode? && start == Latest(starts)
    ensures r.Ok? && !r.value.2 ==>
      && i < r.value.0 && (r.value.1.InCode? || r.value.1.InLineComment? ==> r.value.0 <= |s|)
      && Finish(s, r.value.0, r.value.1, origin, starts) == Finish(s, i, state, origin, starts)
    ensures r.Ok? && r.value.2 ==>
      && r.value.0 == i + 1 && r.value.1 == InCode && s[i] == '{' && state.InInterpolated?
      && !Pair(s, i, '{', '{') && (!state.verbatim || !Pair(s, i, '"', '"'))
    ensures r.Err? ==> Tells(r.error, Finish(s, i, state, origin, starts))
  {
    var c := s[i];
    match state
    case InLineComment =>
      return Ok((i + 1, if c == '\n' then InCode else state, false));
    case InBlockComment =>
      if c == '*' && Is(s, i + 1, '/') {
        return Ok((i + 2, InCode, false));
      }
      return Ok((i + 1, state, false));
    case InString =>
      if c == '\\' {
        return Ok((i + 2, state, false));
      } else if c == '"' {
        return Ok((i + 1, InCode, false));
      } else if NewLine(c) {
        return Err(UnterminatedString(start));
      }
      return Ok((i + 1, state, false));
    case InChar =>
      if c == '\\' {
        return Ok((i + 2, state, false));
      } else if c == '\'' {
        return Ok((i + 1, InCode, false));
      } else if NewLine(c) {
        return Err(UnterminatedChar(start));
      }
      return Ok((i + 1, state, false));
    case InVerbatim =>
      if c == '"' && Is(s, i + 1, '"') {
        return Ok((i + 2, state, false));
      } else if c == '"' {
        return Ok((i + 1, InCode, false));
      }
      return Ok((i + 1, state, false));
    case InInterpolated(verbatim) =>
      if (if verbatim then c == '"' && Is(s, i + 1, '"') else c == '\\') {
        return Ok((i + 2, state, false));
      } else if c == '{' && Is(s, i + 1, '{') {
        return Ok((i + 2, state, false));
      } else if c == '{' {
        return Ok((i + 1, InCode, true));
      } else if c == '}' && Is(s, i + 1, '}') {
        return Ok((i + 2, state, false));
      } else if c == '}' {
        return Err(Unmatched(c, i));
      } else if c == '"' {
        return Ok((i + 1, InCode, false));
      } else if !verbatim && NewLine(c) {
        return Err(UnterminatedString(start));
      }
      return Ok((i + 1, state, false));
  }

  // One turn in code at anything but a bracket: the comment or literal that
  // starts there, or the next character.
  method ScanToken(s: string, i: nat, ghost starts: seq<nat>) returns (j: nat, state: State)
    requires i < |s|
    ensures i < j && (state.InCode? || state.InLineComment? ==> j <= |s|)
    ensures Finish(s, j, state, i, if state.InCode? || state.InLineComment? then starts else starts + [i])
         == ReadToken(s, i, starts)
  {
    var c := s[i];
    if c == '/' && Is(s, i + 1, '/') {
      return i + 2, InLineComment;
    } else if c == '/' && Is(s, i + 1, '*') {
      return i + 2, InBlockComment;
    } else if c == '$' && Pair(s, i + 1, '@', '"') {
      return i + 3, InInterpolated(true);
    } else if c == '@' && Pair(s, i + 1, '$', '"') {
      return i + 3, InInterpolated(true);
    } else if c == '@' && Is(s, i + 1, '"') {
      return i + 2, InVerbatim;
    } else if c == '$' && Is(s, i + 1, '"') {
      return i + 2, InInterpolated(false);
    } else if c == '"' {
      return i + 1, InString;
    } else if c == '\'' {
      return i + 1, InChar;
    }
    return i + 1, InCode;
  }

  lemma {:induction false} HoleOpens(s: string, i: nat, state: State, stack: seq<Frame>, t: Trail)
    requires i < |s| && state.InInterpolated? && s[i] == '{' && |t.outer| == |stack|
    requires !Pair(s, i, '{', '{') && (!state.verbatim || !Pair(s, i, '"', '"'))
    ensures Expect(s, i, state, stack, t)
         == Expect(s, i + 1, InCode, stack + [Frame('{', i, Some(state))], t.(outer := t.outer + [t.origin]))
  {
    Pushed(s, i, Frame('{', i, Some(state)), stack, t);
  }

  lemma {:induction false} BracketOpens(s: string, i: nat, stack: seq<Frame>, t: Trail)
    requires i < |s| && Opener(s[i]) && |t.outer| == |stack|
    ensures Expect(s, i, InCode, stack, t)
         == Expect(s, i + 1, InCode, stack + [Frame(s[i], i, None)], t.(outer := t.outer + [t.origin]))
  {
    Pushed(s, i, Frame(s[i], i, None), stack, t);
  }

  function Popped(s: string, inner: Reading, f: Frame, stack: seq<Frame>, t: Trail): Reading
    requires |t.outer| == |stack|
  {
    if inner.Fault? then inner
    else if Is(s, inner.j, ClosingOf(f.open)) then
      Expect(s, inner.j + 1, Back(f), stack, t.(starts := inner.starts))
    else Fault(NotClosing(s, inner.j, f.open, f.at), inner.starts)
  }

  // Code after a pushed bracket: up to the one that closes it, and back.
  lemma {:induction false} Pushed(s: string, i: nat, f: Frame, stack: seq<Frame>, t: Trail)
    requires |t.outer| == |stack|
    ensures Expect(s, i + 1, InCode, stack + [f], t.(outer := t.outer + [t.origin]))
         == Popped(s, ReadCode(s, i + 1, t.starts), f, stack, t)
  {
    assert (stack + [f])[..|stack|] == stack;
    assert (t.outer + [t.origin])[..|stack|] == t.outer;
  }

  lemma {:induction false} TokenStarts(s: string, i: nat, j: nat, state: State, stack: seq<Frame>, t: Trail, u: Trail)
    requires i < |s| && !Opener(s[i]) && !Closer(s[i]) && |t.outer| == |stack| && u.outer == t.outer
    requires Finish(s, j, state, u.origin, u.starts) == ReadToken(s, i, t.starts)
    ensures Expect(s, i, InCode, stack, t) == Expect(s, j, state, stack, u)
  {
  }

  // One turn in code at a closing bracket: what it closes, or the mismatch.
  method CloseBracket(s: string, i: nat, stack: seq<Frame>, ghost t: Trail) returns (r: Result<State, Refusal>)
    requires i < |s| && Closer(s[i]) && |t.outer| == |stack|
    ensures r.Ok? ==>
      && stack != []
      && Expect(s, i, InCode, stack, t)
      == Expect(s, i + 1, r.value, stack[..|stack|-1], Trail(t.outer[|stack|-1], t.outer[..|stack|-1], t.starts))
    ensures r.Err? ==> Tells(r.error, Expect(s, i, InCode, stack, t))
  {
    if stack == [] || ClosingOf(stack[|stack|-1].open) != s[i] {
      return Err(Unmatched(s[i], i));
    }
    var top := stack[|stack|-1];
    return Ok(if top.resume.Some? then top.resume.value else InCode);
  }

  // The tests after the last character.
  method AtEnd(s: string, c: Config, ghost t: Trail) returns (r: Option<Refusal>)
    requires c.i >= |s| && Good(s, c, t)
    ensures if r.None? then Verdict(s).Read? else Tells(r.value, Verdict(s))
  {
    if c.state != InCode && c.state != InLineComment {
      return Some(if c.state == InBlockComment then UnterminatedComment(c.start)
                  else if c.state == InChar then UnterminatedChar(c.start)
                  else UnterminatedString(c.start));
    }
    assert Finish(s, c.i, c.state, t.origin, t.starts) == Read(|s|, t.starts);
    assert ReadCode(s, |s|, t.starts) == Read(|s|, t.starts);
    if c.stack != [] {
      var top := c.stack[|c.stack|-1];
      assert Unwind(s, Read(|s|, t.starts), c.stack, t.outer) == Fault(Unmatched(top.open, top.at), t.starts);
      return Some(Unmatched(top.open, top.at));
    }
    return None;
  }

  method InsideTurn(s: string, c: Config, ghost t: Trail) returns (r: Result<Config, Refusal>, ghost u: Trail)
    requires c.i < |s| && Good(s, c, t) && c.state != InCode
    ensures r.Ok? ==> Good(s, r.value, u) && c.i < r.value.i
    ensures r.Err? ==> Tells(r.error, Verdict(s))
  {
    u := t;
    var inside := ScanInside(s, c.i, c.state, c.start, t.origin, t.starts);
    if inside.Err? {
      return Err(inside.error), t;
    }
    var (i, state, hole) := inside.value;
    if hole {
      HoleOpens(s, c.i, c.state, c.stack, t);
      u := t.(outer := t.outer + [t.origin]);
      r := Ok(Config(i, state, c.stack + [Frame('{', c.i, Some(c.state))], c.start));
    } else {
      r := Ok(Config(i, state, c.stack, c.start));
    }
  }

  method CodeTurn(s: string, c: Config, ghost t: Trail) returns (r: Result<Config, Refusal>, ghost u: Trail)
    requires c.i < |s| && Good(s, c, t) && c.state == InCode
    ensures r.Ok? ==> Good(s, r.value, u) && c.i < r.value.i
    ensures r.Err? ==> Tells(r.error, Verdict(s))
  {
    u := t;
    if Opener(s[c.i]) {
      BracketOpens(s, c.i, c.stack, t);
      u := t.(outer := t.outer + [t.origin]);
      r := Ok(c.(i := c.i + 1, stack := c.stack + [Frame(s[c.i], c.i, None)]));
    } else if Closer(s[c.i]) {
      var state := CloseBracket(s, c.i, c.stack, t);
      if state.Err? {
        return Err(state.error), t;
      }
      u := Trail(t.outer[|c.stack|-1], t.outer[..|c.stack|-1], t.starts);
      r := Ok(Config(c.i + 1, state.value, c.stack[..|c.stack|-1], c.start));
    } else {
      r, u := TokenTurn(s, c, t);
    }
  }

  method TokenTurn(s: string, c: Config, ghost t: Trail) returns (r: Result<Config, Refusal>, ghost u: Trail)
    requires c.i < |s| && Good(s, c, t) && c.state == InCode && !Opener(s[c.i]) && !Closer(s[c.i])
    ensures r.Ok? && Good(s, r.value, u) && c.i < r.value.i
  {
    var j, after := ScanToken(s, c.i, t.starts);
    var plain := after == InCode || after == InLineComment;
    u := Trail(c.i, t.outer, if plain then t.starts else t.starts + [c.i]);
    TokenStarts(s, c.i, j, after, c.stack, t, u);
    r := Ok(Config(j, after, c.stack, if plain then c.start else c.i));
  }

  // Accepts exactly the recognised expressions that are short enough and hold
  // no forbidden construct, and reports the recogniser's verdict on the others;
  // `forbidden` stands for the JObject initializer search.
  method ValidateExpression(s: string, forbidden: string -> bool) returns (r: Option<Refusal>)
    ensures r.None? <==> !forbidden(s) && |s| < EXPRESSION_MAX_CHARS && Recognised(s)
    ensures r == Some(Forbidden) <==> forbidden(s)
    ensures r == Some(TooLong) <==> !forbidden(s) && |s| >= EXPRESSION_MAX_CHARS
    ensures !forbidden(s) && |s| < EXPRESSION_MAX_CHARS && r.Some? ==> Tells(r.value, Verdict(s))
  {
    if forbidden(s) {
      return Some(Forbidden);
    }
    if |s| >= EXPRESSION_MAX_CHARS {
      return Some(TooLong);
    }
    r := Scan(s);
    if r.Some? {
      VerdictBlames(s);
    }
  }

  method Scan(s: string) returns (r: Option<Refusal>)
    ensures if r.None? then Recognised(s) else Tells(r.value, Verdict(s))
  {
    var c := Config(0, InCode, [], 0);
    ghost var t := Trail(0, [], []);
    while c.i < |s|
      invariant Good(s, c, t)
      decreases |s| - c.i
    {
      var turn;
      if c.state != InCode {
        turn, t := InsideTurn(s, c, t);
      } else {
        turn, t := CodeTurn(s, c, t);
      }
      if turn.Err? {
        return Some(turn.error);
      }
      c := turn.value;
    }
    r := AtEnd(s, c, t);
  }
}
