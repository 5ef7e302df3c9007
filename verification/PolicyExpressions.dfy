// C# policy expressions as the lexical check sees them: brackets, comments,
// character literals, and plain, verbatim and interpolated strings whose holes
// hold code again, in a recursive-descent recogniser.
module PolicyExpressions {
  import opened Wrappers

  const EXPRESSION_MAX_CHARS := 32768

  predicate NewLine(c: char) { c == '\r' || c == '\n' }

  predicate Opener(c: char) { c == '(' || c == '[' || c == '{' }

  predicate Closer(c: char) { c == ')' || c == ']' || c == '}' }

  function ClosingOf(open: char): char {
    if open == '(' then ')' else if open == '[' then ']' else '}'
  }

  predicate Is(s: string, i: nat, c: char) {
    i < |s| && s[i] == c
  }

  predicate Pair(s: string, i: nat, a: char, b: char) {
    Is(s, i, a) && Is(s, i + 1, b)
  }

  // ----- The recursive-descent recogniser.  Each function starts inside its
  // construct and gives the position after it, or None when it is not closed.

  function LineComment(s: string, i: nat): (j: nat)
    requires i <= |s|
    ensures i <= j <= |s|
    decreases |s| - i
  {
    if i == |s| then i else if s[i] == '\n' then i + 1 else LineComment(s, i + 1)
  }

  function BlockComment(s: string, i: nat): (r: Option<nat>)
    ensures r.Some? ==> i < r.value <= |s|
    decreases |s| - i
  {
    if i >= |s| then None
    else if Pair(s, i, '*', '/') then Some(i + 2)
    else BlockComment(s, i + 1)
  }

  // A string or character literal that ends at `quote` and not at a line end.
  function Quoted(s: string, i: nat, quote: char): (r: Option<nat>)
    ensures r.Some? ==> i < r.value <= |s|
    decreases |s| - i
  {
    if i >= |s| then None
    else if s[i] == '\\' then Quoted(s, i + 2, quote)
    else if s[i] == quote then Some(i + 1)
    else if NewLine(s[i]) then None
    else Quoted(s, i + 1, quote)
  }

  function Verbatim(s: string, i: nat): (r: Option<nat>)
    ensures r.Some? ==> i < r.value <= |s|
    decreases |s| - i
  {
    if i >= |s| then None
    else if Pair(s, i, '"', '"') then Verbatim(s, i + 2)
    else if s[i] == '"' then Some(i + 1)
    else Verbatim(s, i + 1)
  }

  function Interpolated(s: string, i: nat, verbatim: bool): (r: Option<nat>)
    ensures r.Some? ==> i < r.value <= |s|
    decreases |s| - i
  {
    if i >= |s| then None
    else if (if verbatim then Pair(s, i, '"', '"') else s[i] == '\\') then Interpolated(s, i + 2, verbatim)
    else if Pair(s, i, '{', '{') || Pair(s, i, '}', '}') then Interpolated(s, i + 2, verbatim)
    else if s[i] == '{' then
      match Code(s, i + 1)
      case Some(j) => if j < |s| && s[j] == '}' then Interpolated(s, j + 1, verbatim) else None
      case None => None
    else if s[i] == '}' then None
    else if s[i] == '"' then Some(i + 1)
    else if !verbatim && NewLine(s[i]) then None
    else Interpolated(s, i + 1, verbatim)
  }

  // Code up to the bracket that closes it, or up to the end.
  function Code(s: string, i: nat): (r: Option<nat>)
    ensures r.Some? && i <= |s| ==> i <= r.value <= |s|
    ensures r.Some? && r.value < |s| ==> Closer(s[r.value])
    decreases |s| - i
  {
    if i >= |s| then Some(|s|)
    else if Closer(s[i]) then Some(i)
    else if Opener(s[i]) then
      match Code(s, i + 1)
      case Some(j) => if j < |s| && s[j] == ClosingOf(s[i]) then Code(s, j + 1) else None
      case None => None
    else
      match Token(s, i)
      case Some(j) => Code(s, j)
      case None => None
  }

  // One comment, literal or other character of code.
  function Token(s: string, i: nat): (r: Option<nat>)
    requires i < |s|
    ensures r.Some? ==> i < r.value <= |s|
    decreases |s| - i, 0
  {
    if Pair(s, i, '/', '/') then Some(LineComment(s, i + 2))
    else if Pair(s, i, '/', '*') then BlockComment(s, i + 2)
    else if (Pair(s, i, '$', '@') || Pair(s, i, '@', '$')) && Is(s, i + 2, '"') then Interpolated(s, i + 3, true)
    else if Pair(s, i, '@', '"') then Verbatim(s, i + 2)
    else if Pair(s, i, '$', '"') then Interpolated(s, i + 2, false)
    else if s[i] == '"' then Quoted(s, i + 1, '"')
    else if s[i] == '\'' then Quoted(s, i + 1, '\'')
    else Some(i + 1)
  }

  // A well-formed expression is code that runs to the end of the text.
  predicate Recognised(s: string) {
    Code(s, 0) == Some(|s|)
  }

  // ----- What that says of the characters themselves

  // Two brackets are an expression only as one of the three pairs.
  lemma BracketPairs(open: char, close: char)
    requires open == '(' || open == '[' || open == '{'
    ensures Recognised([open, close]) <==>
      (open == '(' && close == ')') || (open == '[' && close == ']') || (open == '{' && close == '}')
  {
    var s := [open, close];
    assert Code(s, 2) == Some(2);
    if Opener(close) {
      assert Code(s, 1) == None;
    } else if !Closer(close) {
      assert Code(s, 1) == None || Code(s, 1) == Some(2);
    }
  }

  // A string of one character may hold anything but a quote, a backslash or a
  // line end, and a character literal likewise.
  lemma OneCharacter(quote: char, c: char)
    requires quote == '"' || quote == '\''
    ensures Recognised([quote, c, quote]) <==> c != quote && c != '\\' && c != '\n' && c != '\r'
  {
    var s := [quote, c, quote];
    assert Token(s, 0) == Quoted(s, 1, quote);
    assert Quoted(s, 3, quote) == None && Code(s, 3) == Some(3);
    assert Quoted(s, 2, quote) == Some(3) && Token(s, 2) == None && Code(s, 2) == None;
    assert Quoted(s, 1, quote) ==
      if c == '\\' then None else if c == quote then Some(2) else if NewLine(c) then None else Some(3);
  }

  // A verbatim string may hold anything but a lone quote.
  lemma OneVerbatim(c: char)
    ensures Recognised(['@', '"', c, '"']) <==> c != '"'
  {
    var s := ['@', '"', c, '"'];
    assert Token(s, 0) == Verbatim(s, 2);
    assert Verbatim(s, 4) == None && Code(s, 4) == Some(4);
    assert Verbatim(s, 3) == Some(4);
  }
}
