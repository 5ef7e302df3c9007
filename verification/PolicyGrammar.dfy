// The language of policy expressions as a grammar: derivation trees, the text
// each of them stands for, and the proof that the recogniser accepts exactly
// those texts.
module PolicyGrammar {
  import opened Wrappers
  import opened PolicyExpressions

  // Code, item after item.  A comment without a line end comes last of all.
  datatype Source =
    | Done
    | Plain(c: char, rest: Source)
    | Group(open: char, inner: Source, rest: Source)
    | LineNote(body: string, rest: Source)
    | LastNote(body: string)
    | BlockNote(body: string, rest: Source)
    | Literal(quote: char, body: string, rest: Source)
    | VerbatimLiteral(body: string, rest: Source)
    | Interpolation(mark: string, verbatim: bool, parts: Parts, rest: Source)

  // The inside of an interpolated string: text units and holes with code.
  datatype Parts = Shut | Unit(text: string, more: Parts) | Hole(inner: Source, more: Parts)

  function Render(t: Source): string {
    match t
    case Done => ""
    case Plain(c, rest) => [c] + Render(rest)
    case Group(open, inner, rest) => [open] + Render(inner) + [ClosingOf(open)] + Render(rest)
    case LineNote(body, rest) => "//" + body + "\n" + Render(rest)
    case LastNote(body) => "//" + body
    case BlockNote(body, rest) => "/*" + body + "*/" + Render(rest)
    case Literal(quote, body, rest) => [quote] + body + [quote] + Render(rest)
    case VerbatimLiteral(body, rest) => "@\"" + body + "\"" + Render(rest)
    case Interpolation(mark, _, parts, rest) => mark + RenderParts(parts) + Render(rest)
  }

  function RenderParts(p: Parts): string {
    match p
    case Shut => "\""
    case Unit(text, more) => text + RenderParts(more)
    case Hole(inner, more) => "{" + Render(inner) + "}" + RenderParts(more)
  }

  predicate Starts(s: string, c: char) { s != "" && s[0] == c }

  predicate StartsTwo(s: string, a: char, b: char) { |s| >= 2 && s[0] == a && s[1] == b }

  // No comment ends inside the body.
  predicate BlockBody(b: string) {
    b == "" || (!StartsTwo(b, '*', '/') && BlockBody(b[1..]))
  }

  // Escapes take the next character along; neither quote nor line end stands bare.
  predicate QuotedBody(b: string, quote: char) {
    b == ""
    || (b[0] == '\\' && |b| >= 2 && QuotedBody(b[2..], quote))
    || (b[0] != '\\' && b[0] != quote && !NewLine(b[0]) && QuotedBody(b[1..], quote))
  }

  // Quotes come in pairs.
  predicate VerbatimBody(b: string) {
    b == ""
    || (StartsTwo(b, '"', '"') && VerbatimBody(b[2..]))
    || (b[0] != '"' && VerbatimBody(b[1..]))
  }

  predicate GoodUnit(u: string, verbatim: bool) {
    || u == "{{" || u == "}}"
    || (verbatim && u == "\"\"")
    || (!verbatim && |u| == 2 && u[0] == '\\')
    || (|u| == 1 && u[0] != '{' && u[0] != '}' && u[0] != '"' && (verbatim || (u[0] != '\\' && !NewLine(u[0]))))
  }

  // A character of code that begins nothing else, given what comes after it.
  predicate BeginsNothing(c: char, after: string) {
    && !Opener(c) && !Closer(c) && c != '"' && c != '\''
    && (c == '/' ==> !Starts(after, '/') && !Starts(after, '*'))
    && (c == '$' ==> !Starts(after, '"') && !StartsTwo(after, '@', '"'))
    && (c == '@' ==> !Starts(after, '"') && !StartsTwo(after, '$', '"'))
  }

  predicate GoodMark(mark: string, verbatim: bool) {
    if verbatim then mark == "$@\"" || mark == "@$\"" else mark == "$\""
  }

  // A tree of the grammar; `last` says that nothing comes after its text.
  predicate Grammatical(t: Source, last: bool) {
    match t
    case Done => true
    case Plain(c, rest) => BeginsNothing(c, Render(rest)) && Grammatical(rest, last)
    case Group(open, inner, rest) => Opener(open) && Grammatical(inner, false) && Grammatical(rest, last)
    case LineNote(body, rest) => '\n' !in body && Grammatical(rest, last)
    case LastNote(body) => last && '\n' !in body
    case BlockNote(body, rest) => BlockBody(body) && Grammatical(rest, last)
    case Literal(quote, body, rest) => (quote == '"' || quote == '\'') && QuotedBody(body, quote) && Grammatical(rest, last)
    case VerbatimLiteral(body, rest) => VerbatimBody(body) && !Starts(Render(rest), '"') && Grammatical(rest, last)
    case Interpolation(mark, verbatim, parts, rest) =>
      && GoodMark(mark, verbatim) && GoodParts(parts, verbatim)
      && (verbatim ==> !Starts(Render(rest), '"')) && Grammatical(rest, last)
  }

  predicate GoodParts(p: Parts, verbatim: bool) {
    match p
    case Shut => true
    case Unit(text, more) => GoodUnit(text, verbatim) && GoodParts(more, verbatim)
    case Hole(inner, more) => !Starts(Render(inner), '{') && Grammatical(inner, false) && GoodParts(more, verbatim)
  }

  // ----- Texts inside texts

  ghost predicate Occurs(s: string, i: nat, r: string) {
    i + |r| <= |s| && forall k {:trigger r[k]} :: 0 <= k < |r| ==> s[i + k] == r[k]
  }

  lemma OccursSplit(s: string, i: nat, a: string, b: string)
    ensures Occurs(s, i, a + b) <==> Occurs(s, i, a) && Occurs(s, i + |a|, b)
  {
    if Occurs(s, i, a + b) {
      assert forall k :: 0 <= k < |a| ==> a[k] == (a + b)[k];
      assert forall k :: 0 <= k < |b| ==> b[k] == (a + b)[|a| + k];
    }
  }

  lemma OccursAt(s: string, i: nat, r: string)
    requires Occurs(s, i, r)
    ensures r != "" ==> Is(s, i, r[0]) && Occurs(s, i + 1, r[1..])
    ensures |r| >= 2 ==> Pair(s, i, r[0], r[1]) && Occurs(s, i + 2, r[2..])
  {
  }

  // ----- What the grammar generates is recognised

  lemma {:induction false} LineNoteEnds(s: string, i: nat, body: string)
    requires Occurs(s, i, body) && '\n' !in body
    requires i + |body| == |s| || s[i + |body|] == '\n'
    ensures LineComment(s, i) == if i + |body| == |s| then |s| else i + |body| + 1
    decreases |body|
  {
    if body != "" {
      OccursAt(s, i, body);
      LineNoteEnds(s, i + 1, body[1..]);
    }
  }

  lemma {:induction false} BlockNoteEnds(s: string, i: nat, body: string)
    requires Occurs(s, i, body) && Pair(s, i + |body|, '*', '/') && BlockBody(body)
    ensures BlockComment(s, i) == Some(i + |body| + 2)
    decreases |body|
  {
    if body != "" {
      OccursAt(s, i, body);
      BlockNoteEnds(s, i + 1, body[1..]);
    }
  }

  lemma {:induction false} LiteralEnds(s: string, i: nat, body: string, quote: char)
    requires Occurs(s, i, body) && Is(s, i + |body|, quote) && QuotedBody(body, quote)
    requires (quote == '"' || quote == '\'')
    ensures Quoted(s, i, quote) == Some(i + |body| + 1)
    decreases |body|
  {
    if body != "" {
      OccursAt(s, i, body);
      if body[0] == '\\' {
        LiteralEnds(s, i + 2, body[2..], quote);
      } else {
        LiteralEnds(s, i + 1, body[1..], quote);
      }
    }
  }

  lemma {:induction false} VerbatimEnds(s: string, i: nat, body: string)
    requires Occurs(s, i, body) && Is(s, i + |body|, '"') && VerbatimBody(body)
    requires !Is(s, i + |body| + 1, '"')
    ensures Verbatim(s, i) == Some(i + |body| + 1)
    decreases |body|
  {
    if body != "" {
      OccursAt(s, i, body);
      if StartsTwo(body, '"', '"') {
        VerbatimEnds(s, i + 2, body[2..]);
      } else {
        VerbatimEnds(s, i + 1, body[1..]);
      }
    }
  }

  // Code goes on to the end of the text or up to a closing bracket.
  predicate Stops(s: string, j: nat) { j == |s| || (j < |s| && Closer(s[j])) }

  lemma PlainToken(s: string, i: nat, c: char, after: string)
    requires Occurs(s, i, [c] + after) && Stops(s, i + 1 + |after|)
    ensures i < |s| && s[i] == c
    ensures BeginsNothing(c, after) ==> Token(s, i) == Some(i + 1)
  {
    OccursSplit(s, i, [c], after);
    OccursAt(s, i, [c] + after);
  }

  // ----- One item of code: what its text says, and what the recogniser does with it

  // A tree's text stands at `i` and ends where code may stop.
  ghost predicate Placed(s: string, i: nat, t: Source, last: bool) {
    && Occurs(s, i, Render(t)) && Grammatical(t, last)
    && Stops(s, i + |Render(t)|) && (last ==> i + |Render(t)| == |s|)
  }

  // The item before `k` is read and the tree `rest` stands after it.
  ghost predicate LeadsTo(s: string, i: nat, t: Source, k: nat, rest: Source, last: bool) {
    i < k && Placed(s, k, rest, last) && k + |Render(rest)| == i + |Render(t)|
  }

  lemma TokenReads(s: string, i: nat, j: nat)
    requires i < |s| && !Opener(s[i]) && !Closer(s[i]) && Token(s, i) == Some(j)
    ensures Code(s, i) == Code(s, j)
  {
  }

  lemma GroupText(s: string, i: nat, t: Source, last: bool)
    requires t.Group? && Placed(s, i, t, last)
    ensures var k := i + 1 + |Render(t.inner)|;
      && Opener(t.open) && Is(s, i, t.open) && Is(s, k, ClosingOf(t.open))
      && Placed(s, i + 1, t.inner, false) && LeadsTo(s, i, t, k + 1, t.rest, last)
  {
    var inner, close, rest := Render(t.inner), [ClosingOf(t.open)], Render(t.rest);
    assert Render(t) == [t.open] + (inner + (close + rest));
    OccursSplit(s, i, [t.open], inner + (close + rest));
    OccursAt(s, i, [t.open]);
    OccursSplit(s, i + 1, inner, close + rest);
    OccursSplit(s, i + 1 + |inner|, close, rest);
    OccursAt(s, i + 1 + |inner|, close);
  }

  lemma GroupReads(s: string, i: nat, open: char, j: nat)
    requires Opener(open) && Is(s, i, open) && Is(s, j, ClosingOf(open)) && Code(s, i + 1) == Some(j)
    ensures Code(s, i) == Code(s, j + 1)
  {
  }

  lemma LineText(s: string, i: nat, t: Source, last: bool)
    requires t.LineNote? && Placed(s, i, t, last)
    ensures Pair(s, i, '/', '/') && Occurs(s, i + 2, t.body) && Is(s, i + 2 + |t.body|, '\n') && '\n' !in t.body
    ensures LeadsTo(s, i, t, i + 3 + |t.body|, t.rest, last)
  {
    var rest := Render(t.rest);
    assert Render(t) == "//" + (t.body + ("\n" + rest));
    OccursSplit(s, i, "//", t.body + ("\n" + rest));
    OccursAt(s, i, "//");
    OccursSplit(s, i + 2, t.body, "\n" + rest);
    OccursSplit(s, i + 2 + |t.body|, "\n", rest);
    OccursAt(s, i + 2 + |t.body|, "\n");
  }

  lemma LineReads(s: string, i: nat, body: string)
    requires Pair(s, i, '/', '/') && Occurs(s, i + 2, body) && '\n' !in body
    requires i + 2 + |body| == |s| || Is(s, i + 2 + |body|, '\n')
    ensures Code(s, i) == if i + 2 + |body| == |s| then Some(|s|) else Code(s, i + 3 + |body|)
  {
    LineNoteEnds(s, i + 2, body);
    TokenReads(s, i, if i + 2 + |body| == |s| then |s| else i + 3 + |body|);
  }

  lemma LastText(s: string, i: nat, t: Source, last: bool)
    requires t.LastNote? && Placed(s, i, t, last)
    ensures Pair(s, i, '/', '/') && Occurs(s, i + 2, t.body) && '\n' !in t.body && i + 2 + |t.body| == |s|
  {
    OccursSplit(s, i, "//", t.body);
    OccursAt(s, i, "//");
  }

  lemma BlockText(s: string, i: nat, t: Source, last: bool)
    requires t.BlockNote? && Placed(s, i, t, last)
    ensures Pair(s, i, '/', '*') && Occurs(s, i + 2, t.body) && Pair(s, i + 2 + |t.body|, '*', '/') && BlockBody(t.body)
    ensures LeadsTo(s, i, t, i + 4 + |t.body|, t.rest, last)
  {
    var rest := Render(t.rest);
    assert Render(t) == "/*" + (t.body + ("*/" + rest));
    OccursSplit(s, i, "/*", t.body + ("*/" + rest));
    OccursAt(s, i, "/*");
    OccursSplit(s, i + 2, t.body, "*/" + rest);
    OccursSplit(s, i + 2 + |t.body|, "*/", rest);
    OccursAt(s, i + 2 + |t.body|, "*/");
  }

  lemma BlockReads(s: string, i: nat, body: string)
    requires Pair(s, i, '/', '*') && Occurs(s, i + 2, body) && Pair(s, i + 2 + |body|, '*', '/') && BlockBody(body)
    ensures Code(s, i) == Code(s, i + 4 + |body|)
  {
    BlockNoteEnds(s, i + 2, body);
    TokenReads(s, i, i + 4 + |body|);
  }

  lemma QuotedText(s: string, i: nat, t: Source, last: bool)
    requires t.Literal? && Placed(s, i, t, last)
    ensures (t.quote == '"' || t.quote == '\'') && Is(s, i, t.quote)
    ensures Occurs(s, i + 1, t.body) && Is(s, i + 1 + |t.body|, t.quote) && QuotedBody(t.body, t.quote)
    ensures LeadsTo(s, i, t, i + 2 + |t.body|, t.rest, last)
  {
    var rest := Render(t.rest);
    assert Render(t) == [t.quote] + (t.body + ([t.quote] + rest));
    OccursSplit(s, i, [t.quote], t.body + ([t.quote] + rest));
    OccursAt(s, i, [t.quote]);
    OccursSplit(s, i + 1, t.body, [t.quote] + rest);
    OccursSplit(s, i + 1 + |t.body|, [t.quote], rest);
    OccursAt(s, i + 1 + |t.body|, [t.quote]);
  }

  lemma QuotedReads(s: string, i: nat, quote: char, body: string)
    requires (quote == '"' || quote == '\'') && Is(s, i, quote)
    requires Occurs(s, i + 1, body) && Is(s, i + 1 + |body|, quote) && QuotedBody(body, quote)
    ensures Code(s, i) == Code(s, i + 2 + |body|)
  {
    LiteralEnds(s, i + 1, body, quote);
    TokenReads(s, i, i + 2 + |body|);
  }

  lemma VerbatimText(s: string, i: nat, t: Source, last: bool)
    requires t.VerbatimLiteral? && Placed(s, i, t, last)
    ensures Pair(s, i, '@', '"') && Occurs(s, i + 2, t.body) && VerbatimBody(t.body)
    ensures Is(s, i + 2 + |t.body|, '"') && !Is(s, i + 3 + |t.body|, '"')
    ensures LeadsTo(s, i, t, i + 3 + |t.body|, t.rest, last)
  {
    var rest := Render(t.rest);
    assert Render(t) == "@\"" + (t.body + ("\"" + rest));
    OccursSplit(s, i, "@\"", t.body + ("\"" + rest));
    OccursAt(s, i, "@\"");
    OccursSplit(s, i + 2, t.body, "\"" + rest);
    OccursSplit(s, i + 2 + |t.body|, "\"", rest);
    OccursAt(s, i + 2 + |t.body|, "\"");
  }

  lemma VerbatimReads(s: string, i: nat, body: string)
    requires Pair(s, i, '@', '"') && Occurs(s, i + 2, body) && VerbatimBody(body)
    requires Is(s, i + 2 + |body|, '"') && !Is(s, i + 3 + |body|, '"')
    ensures Code(s, i) == Code(s, i + 3 + |body|)
  {
    VerbatimEnds(s, i + 2, body);
    TokenReads(s, i, i + 3 + |body|);
  }

  // The text of an interpolation's parts, and what must not follow it.
  ghost predicate PlacedParts(s: string, i: nat, p: Parts, verbatim: bool) {
    Occurs(s, i, RenderParts(p)) && GoodParts(p, verbatim) && (verbatim ==> !Is(s, i + |RenderParts(p)|, '"'))
  }

  lemma InterpolationText(s: string, i: nat, t: Source, last: bool)
    requires t.Interpolation? && Placed(s, i, t, last)
    ensures Occurs(s, i, t.mark) && GoodMark(t.mark, t.verbatim)
    ensures PlacedParts(s, i + |t.mark|, t.parts, t.verbatim)
    ensures LeadsTo(s, i, t, i + |t.mark| + |RenderParts(t.parts)|, t.rest, last)
  {
    var parts, rest := RenderParts(t.parts), Render(t.rest);
    assert Render(t) == t.mark + (parts + rest);
    OccursSplit(s, i, t.mark, parts + rest);
    OccursSplit(s, i + |t.mark|, parts, rest);
  }

  lemma MarkToken(s: string, i: nat, mark: string, verbatim: bool)
    requires Occurs(s, i, mark) && GoodMark(mark, verbatim)
    ensures i < |s| && !Opener(s[i]) && !Closer(s[i])
    ensures Token(s, i) == Interpolated(s, i + |mark|, verbatim)
  {
    OccursAt(s, i, mark);
    if verbatim {
      OccursAt(s, i + 2, mark[2..]);
    }
  }

  lemma InterpolationReads(s: string, i: nat, mark: string, verbatim: bool, j: nat)
    requires Occurs(s, i, mark) && GoodMark(mark, verbatim)
    requires Interpolated(s, i + |mark|, verbatim) == Some(j)
    ensures Code(s, i) == Code(s, j)
  {
    MarkToken(s, i, mark, verbatim);
    TokenReads(s, i, j);
  }

  lemma UnitText(s: string, i: nat, p: Parts, verbatim: bool)
    requires p.Unit? && PlacedParts(s, i, p, verbatim)
    ensures Occurs(s, i, p.text) && GoodUnit(p.text, verbatim) && PlacedParts(s, i + |p.text|, p.more, verbatim)
  {
    OccursSplit(s, i, p.text, RenderParts(p.more));
  }

  lemma UnitReads(s: string, i: nat, u: string, verbatim: bool)
    requires Occurs(s, i, u) && GoodUnit(u, verbatim)
    ensures Interpolated(s, i, verbatim) == Interpolated(s, i + |u|, verbatim)
  {
    OccursAt(s, i, u);
  }

  lemma HoleText(s: string, i: nat, p: Parts, verbatim: bool)
    requires p.Hole? && PlacedParts(s, i, p, verbatim)
    ensures var k := i + 1 + |Render(p.inner)|;
      && Is(s, i, '{') && !Is(s, i + 1, '{') && Is(s, k, '}')
      && Placed(s, i + 1, p.inner, false) && PlacedParts(s, k + 1, p.more, verbatim)
  {
    var inner, rest := Render(p.inner), RenderParts(p.more);
    assert RenderParts(p) == "{" + (inner + ("}" + rest));
    OccursSplit(s, i, "{", inner + ("}" + rest));
    OccursAt(s, i, "{");
    OccursSplit(s, i + 1, inner, "}" + rest);
    OccursSplit(s, i + 1 + |inner|, "}", rest);
    OccursAt(s, i + 1 + |inner|, "}");
  }

  lemma HoleReads(s: string, i: nat, j: nat, verbatim: bool)
    requires Is(s, i, '{') && !Is(s, i + 1, '{') && Is(s, j, '}') && Code(s, i + 1) == Some(j)
    ensures Interpolated(s, i, verbatim) == Interpolated(s, j + 1, verbatim)
  {
  }

  // ----- What the grammar generates is recognised

  // The recogniser reads the text of a tree, wherever it stands, to its end.
  lemma {:induction false} Generated(s: string, i: nat, t: Source, last: bool)
    requires Placed(s, i, t, last)
    ensures Code(s, i) == Some(i + |Render(t)|)
    decreases t, 1
  {
    match t
    case Done =>
    case Plain(_, _) => GeneratedPlain(s, i, t, last);
    case Group(_, _, _) => GeneratedGroup(s, i, t, last);
    case LineNote(_, _) => GeneratedComment(s, i, t, last);
    case LastNote(_) => GeneratedComment(s, i, t, last);
    case BlockNote(_, _) => GeneratedComment(s, i, t, last);
    case Literal(_, _, _) => GeneratedLiteral(s, i, t, last);
    case VerbatimLiteral(_, _) => GeneratedLiteral(s, i, t, last);
    case Interpolation(_, _, _, _) => GeneratedInterpolation(s, i, t, last);
  }

  lemma {:induction false} GeneratedPlain(s: string, i: nat, t: Source, last: bool)
    requires t.Plain? && Placed(s, i, t, last)
    ensures Code(s, i) == Some(i + |Render(t)|)
    decreases t, 0
  {
    PlainToken(s, i, t.c, Render(t.rest));
    OccursSplit(s, i, [t.c], Render(t.rest));
    Generated(s, i + 1, t.rest, last);
  }

  lemma {:induction false} GeneratedGroup(s: string, i: nat, t: Source, last: bool)
    requires t.Group? && Placed(s, i, t, last)
    ensures Code(s, i) == Some(i + |Render(t)|)
    decreases t, 0
  {
    GroupText(s, i, t, last);
    Generated(s, i + 1, t.inner, false);
    GroupReads(s, i, t.open, i + 1 + |Render(t.inner)|);
    Generated(s, i + 2 + |Render(t.inner)|, t.rest, last);
  }

  lemma {:induction false} GeneratedComment(s: string, i: nat, t: Source, last: bool)
    requires (t.LineNote? || t.LastNote? || t.BlockNote?) && Placed(s, i, t, last)
    ensures Code(s, i) == Some(i + |Render(t)|)
    decreases t, 0
  {
    if t.LineNote? {
      LineText(s, i, t, last);
      LineReads(s, i, t.body);
      Generated(s, i + 3 + |t.body|, t.rest, last);
    } else if t.LastNote? {
      LastText(s, i, t, last);
      LineReads(s, i, t.body);
    } else {
      BlockText(s, i, t, last);
      BlockReads(s, i, t.body);
      Generated(s, i + 4 + |t.body|, t.rest, last);
    }
  }

  lemma {:induction false} GeneratedLiteral(s: string, i: nat, t: Source, last: bool)
    requires (t.Literal? || t.VerbatimLiteral?) && Placed(s, i, t, last)
    ensures Code(s, i) == Some(i + |Render(t)|)
    decreases t, 0
  {
    if t.Literal? {
      QuotedText(s, i, t, last);
      QuotedReads(s, i, t.quote, t.body);
      Generated(s, i + 2 + |t.body|, t.rest, last);
    } else {
      VerbatimText(s, i, t, last);
      VerbatimReads(s, i, t.body);
      Generated(s, i + 3 + |t.body|, t.rest, last);
    }
  }

  lemma {:induction false} GeneratedInterpolation(s: string, i: nat, t: Source, last: bool)
    requires t.Interpolation? && Placed(s, i, t, last)
    ensures Code(s, i) == Some(i + |Render(t)|)
    decreases t, 0
  {
    var k := i + |t.mark| + |RenderParts(t.parts)|;
    InterpolationText(s, i, t, last);
    GeneratedParts(s, i + |t.mark|, t.parts, t.verbatim);
    InterpolationReads(s, i, t.mark, t.verbatim, k);
    Generated(s, k, t.rest, last);
  }

  lemma {:induction false} GeneratedParts(s: string, i: nat, p: Parts, verbatim: bool)
    requires PlacedParts(s, i, p, verbatim)
    ensures Interpolated(s, i, verbatim) == Some(i + |RenderParts(p)|)
    decreases p, 1
  {
    match p
    case Shut => OccursAt(s, i, "\"");
    case Unit(text, more) =>
      UnitText(s, i, p, verbatim);
      UnitReads(s, i, text, verbatim);
      GeneratedParts(s, i + |text|, more, verbatim);
    case Hole(_, _) => GeneratedHole(s, i, p, verbatim);
  }

  lemma {:induction false} GeneratedHole(s: string, i: nat, p: Parts, verbatim: bool)
    requires p.Hole? && PlacedParts(s, i, p, verbatim)
    ensures Interpolated(s, i, verbatim) == Some(i + |RenderParts(p)|)
    decreases p, 0
  {
    var k := i + 1 + |Render(p.inner)|;
    HoleText(s, i, p, verbatim);
    Generated(s, i + 1, p.inner, false);
    HoleReads(s, i, k, verbatim);
    GeneratedParts(s, k + 1, p.more, verbatim);
  }

  // ----- What is recognised is generated by the grammar

  // The bodies of comments and literals that the recogniser reads.

  lemma {:induction false} LineBody(s: string, i: nat)
    requires i <= |s|
    ensures var k := LineComment(s, i);
      (k == |s| && '\n' !in s[i..]) || (k > i && s[k-1] == '\n' && '\n' !in s[i..k-1])
    decreases |s| - i
  {
    if i < |s| && s[i] != '\n' {
      LineBody(s, i + 1);
      var k := LineComment(s, i);
      assert s[i..] == [s[i]] + s[i+1..];
      if k > i + 1 {
        assert s[i..k-1] == [s[i]] + s[i+1..k-1];
      }
    }
  }

  lemma {:induction false} BlockRead(s: string, i: nat)
    requires BlockComment(s, i).Some?
    ensures var k := BlockComment(s, i).value;
      i + 2 <= k <= |s| && Pair(s, k - 2, '*', '/') && BlockBody(s[i..k-2])
    decreases |s| - i
  {
    if !Pair(s, i, '*', '/') {
      BlockRead(s, i + 1);
      var k := BlockComment(s, i).value;
      assert s[i..k-2][1..] == s[i+1..k-2];
      assert StartsTwo(s[i..k-2], '*', '/') ==> Pair(s, i, '*', '/');
    }
  }

  lemma {:induction false} QuotedRead(s: string, i: nat, quote: char)
    requires Quoted(s, i, quote).Some? && quote != '\\'
    ensures var k := Quoted(s, i, quote).value;
      i < k <= |s| && s[k-1] == quote && QuotedBody(s[i..k-1], quote)
    decreases |s| - i
  {
    if s[i] == '\\' {
      QuotedRead(s, i + 2, quote);
      var k := Quoted(s, i, quote).value;
      assert s[i..k-1][2..] == s[i+2..k-1];
    } else if s[i] != quote {
      QuotedRead(s, i + 1, quote);
      var k := Quoted(s, i, quote).value;
      assert s[i..k-1][1..] == s[i+1..k-1];
    }
  }

  lemma {:induction false} VerbatimRead(s: string, i: nat)
    requires Verbatim(s, i).Some?
    ensures var k := Verbatim(s, i).value;
      i < k <= |s| && s[k-1] == '"' && VerbatimBody(s[i..k-1]) && !Is(s, k, '"')
    decreases |s| - i
  {
    if Pair(s, i, '"', '"') {
      VerbatimRead(s, i + 2);
      var k := Verbatim(s, i).value;
      assert s[i..k-1][2..] == s[i+2..k-1];
    } else if s[i] != '"' {
      VerbatimRead(s, i + 1);
      var k := Verbatim(s, i).value;
      assert s[i..k-1][1..] == s[i+1..k-1];
    }
  }

  // `t` is a tree for the code from `i` to `j`.
  ghost predicate Covers(t: Source, s: string, i: nat, j: nat) {
    Occurs(s, i, Render(t)) && i + |Render(t)| == j && Grammatical(t, j == |s|)
  }

  ghost predicate CoversParts(p: Parts, s: string, i: nat, j: nat, verbatim: bool) {
    Occurs(s, i, RenderParts(p)) && i + |RenderParts(p)| == j && GoodParts(p, verbatim)
  }

  lemma {:induction false} CodeTree(s: string, i: nat) returns (t: Source)
    requires i <= |s| && Code(s, i).Some?
    ensures Covers(t, s, i, Code(s, i).value)
    decreases |s| - i, 2
  {
    if i == |s| || Closer(s[i]) {
      t := Done;
    } else if Opener(s[i]) {
      t := GroupTree(s, i);
    } else {
      var k := Token(s, i).value;
      var rest := CodeTree(s, k);
      t := TokenTree(s, i, rest);
    }
  }

  lemma {:induction false} GroupTree(s: string, i: nat) returns (t: Source)
    requires i < |s| && Opener(s[i]) && Code(s, i).Some?
    ensures Covers(t, s, i, Code(s, i).value)
    decreases |s| - i, 1
  {
    var inner := CodeTree(s, i + 1);
    var k := Code(s, i + 1).value;
    var rest := CodeTree(s, k + 1);
    t := Group(s[i], inner, rest);
    JoinedFour(s, i, [s[i]], Render(inner), [ClosingOf(s[i])], Render(rest));
  }

  lemma JoinedFour(s: string, i: nat, a: string, b: string, c: string, d: string)
    requires Occurs(s, i, a) && Occurs(s, i + |a|, b) && Occurs(s, i + |a| + |b|, c)
    requires Occurs(s, i + |a| + |b| + |c|, d)
    ensures Occurs(s, i, a + b + c + d)
  {
  }

  lemma {:induction false} TokenTree(s: string, i: nat, rest: Source) returns (t: Source)
    requires i < |s| && !Opener(s[i]) && !Closer(s[i]) && Token(s, i).Some? && Code(s, Token(s, i).value).Some?
    requires Covers(rest, s, Token(s, i).value, Code(s, Token(s, i).value).value)
    ensures Covers(t, s, i, Code(s, Token(s, i).value).value)
    decreases |s| - i, 1
  {
    if Pair(s, i, '/', '/') {
      t := LineTree(s, i, rest);
    } else if Pair(s, i, '/', '*') {
      t := BlockTree(s, i, rest);
    } else if (Pair(s, i, '$', '@') || Pair(s, i, '@', '$')) && Is(s, i + 2, '"') {
      var mark := MarkAt(s, i);
      t := InterpolationTree(s, i, mark, true, rest);
    } else if Pair(s, i, '@', '"') {
      t := VerbatimTree(s, i, rest);
    } else if Pair(s, i, '$', '"') {
      t := InterpolationTree(s, i, "$\"", false, rest);
    } else if s[i] == '"' || s[i] == '\'' {
      t := QuotedTree(s, i, rest);
    } else {
      t := PlainTree(s, i, rest);
    }
  }

  lemma MarkAt(s: string, i: nat) returns (mark: string)
    requires (Pair(s, i, '$', '@') || Pair(s, i, '@', '$')) && Is(s, i + 2, '"')
    ensures Occurs(s, i, mark) && GoodMark(mark, true) && |mark| == 3
  {
    mark := if s[i] == '$' then "$@\"" else "@$\"";
  }

  lemma PlainTree(s: string, i: nat, rest: Source) returns (t: Source)
    requires i < |s| && !Opener(s[i]) && !Closer(s[i]) && s[i] != '"' && s[i] != '\''
    requires !Pair(s, i, '/', '/') && !Pair(s, i, '/', '*') && !Pair(s, i, '@', '"') && !Pair(s, i, '$', '"')
    requires !((Pair(s, i, '$', '@') || Pair(s, i, '@', '$')) && Is(s, i + 2, '"'))
    requires Covers(rest, s, i + 1, i + 1 + |Render(rest)|)
    ensures Covers(t, s, i, i + 1 + |Render(rest)|)
  {
    t := Plain(s[i], rest);
    var after := Render(rest);
    if |after| >= 2 {
      OccursAt(s, i + 1, after);
    }
  }

  lemma LineTree(s: string, i: nat, rest: Source) returns (t: Source)
    requires Pair(s, i, '/', '/')
    requires var k := LineComment(s, i + 2); Covers(rest, s, k, k + |Render(rest)|)
    ensures Covers(t, s, i, LineComment(s, i + 2) + |Render(rest)|)
  {
    var k := LineComment(s, i + 2);
    LineBody(s, i + 2);
    if k == |s| && '\n' !in s[i+2..] {
      t := LastNote(s[i+2..]);
    } else {
      t := NoteTree(s, i, k, rest);
    }
  }

  lemma NoteTree(s: string, i: nat, k: nat, rest: Source) returns (t: Source)
    requires Pair(s, i, '/', '/') && i + 2 < k <= |s| && s[k-1] == '\n' && '\n' !in s[i+2..k-1]
    requires Covers(rest, s, k, k + |Render(rest)|)
    ensures Covers(t, s, i, k + |Render(rest)|)
  {
    t := LineNote(s[i+2..k-1], rest);
    JoinedFour(s, i, "//", s[i+2..k-1], "\n", Render(rest));
  }

  lemma BlockTree(s: string, i: nat, rest: Source) returns (t: Source)
    requires Pair(s, i, '/', '*') && BlockComment(s, i + 2).Some?
    requires var k := BlockComment(s, i + 2).value; Covers(rest, s, k, k + |Render(rest)|)
    ensures Covers(t, s, i, BlockComment(s, i + 2).value + |Render(rest)|)
  {
    BlockRead(s, i + 2);
    var body := s[i+2..BlockComment(s, i + 2).value-2];
    t := BlockNote(body, rest);
    JoinedFour(s, i, "/*", body, "*/", Render(rest));
  }

  lemma QuotedTree(s: string, i: nat, rest: Source) returns (t: Source)
    requires i < |s| && (s[i] == '"' || s[i] == '\'') && Quoted(s, i + 1, s[i]).Some?
    requires var k := Quoted(s, i + 1, s[i]).value; Covers(rest, s, k, k + |Render(rest)|)
    ensures Covers(t, s, i, Quoted(s, i + 1, s[i]).value + |Render(rest)|)
  {
    QuotedRead(s, i + 1, s[i]);
    var body := s[i+1..Quoted(s, i + 1, s[i]).value-1];
    t := Literal(s[i], body, rest);
    JoinedFour(s, i, [s[i]], body, [s[i]], Render(rest));
  }

  lemma VerbatimTree(s: string, i: nat, rest: Source) returns (t: Source)
    requires Pair(s, i, '@', '"') && Verbatim(s, i + 2).Some?
    requires var k := Verbatim(s, i + 2).value; Covers(rest, s, k, k + |Render(rest)|)
    ensures Covers(t, s, i, Verbatim(s, i + 2).value + |Render(rest)|)
  {
    VerbatimRead(s, i + 2);
    var k := Verbatim(s, i + 2).value;
    var body := s[i+2..k-1];
    t := VerbatimLiteral(body, rest);
    JoinedFour(s, i, "@\"", body, "\"", Render(rest));
  }

  lemma {:induction false} InterpolationTree(s: string, i: nat, mark: string, verbatim: bool, rest: Source)
    returns (t: Source)
    requires Occurs(s, i, mark) && GoodMark(mark, verbatim) && Interpolated(s, i + |mark|, verbatim).Some?
    requires var k := Interpolated(s, i + |mark|, verbatim).value; Covers(rest, s, k, k + |Render(rest)|)
    ensures Covers(t, s, i, Interpolated(s, i + |mark|, verbatim).value + |Render(rest)|)
    decreases |s| - i, 0
  {
    var k := Interpolated(s, i + |mark|, verbatim).value;
    var parts := PartsTree(s, i + |mark|, verbatim);
    t := Interpolation(mark, verbatim, parts, rest);
  }

  lemma {:induction false} PartsTree(s: string, i: nat, verbatim: bool) returns (p: Parts)
    requires Interpolated(s, i, verbatim).Some?
    ensures CoversParts(p, s, i, Interpolated(s, i, verbatim).value, verbatim)
    ensures verbatim ==> !Is(s, Interpolated(s, i, verbatim).value, '"')
    decreases |s| - i, 1
  {
    if (if verbatim then Pair(s, i, '"', '"') else s[i] == '\\') || Pair(s, i, '{', '{') || Pair(s, i, '}', '}') {
      var more := PartsTree(s, i + 2, verbatim);
      p := UnitTree(s, i, 2, more, verbatim);
    } else if s[i] == '{' {
      p := HoleTree(s, i, verbatim);
    } else if s[i] == '"' {
      p := Shut;
    } else {
      var more := PartsTree(s, i + 1, verbatim);
      p := UnitTree(s, i, 1, more, verbatim);
    }
  }

  lemma UnitTree(s: string, i: nat, n: nat, more: Parts, verbatim: bool) returns (p: Parts)
    requires i + n <= |s| && GoodUnit(s[i..i+n], verbatim)
    requires CoversParts(more, s, i + n, i + n + |RenderParts(more)|, verbatim)
    ensures CoversParts(p, s, i, i + n + |RenderParts(more)|, verbatim)
  {
    p := Unit(s[i..i+n], more);
  }

  lemma {:induction false} HoleTree(s: string, i: nat, verbatim: bool) returns (p: Parts)
    requires Is(s, i, '{') && !Is(s, i + 1, '{') && Interpolated(s, i, verbatim).Some?
    requires !verbatim || !Pair(s, i, '"', '"')
    ensures CoversParts(p, s, i, Interpolated(s, i, verbatim).value, verbatim)
    ensures verbatim ==> !Is(s, Interpolated(s, i, verbatim).value, '"')
    decreases |s| - i, 0
  {
    var k := Code(s, i + 1).value;
    var inner := CodeTree(s, i + 1);
    var more := PartsTree(s, k + 1, verbatim);
    p := Hole(inner, more);
    JoinedFour(s, i, "{", Render(inner), "}", RenderParts(more));
  }

  // ----- The language

  ghost predicate InLanguage(s: string) {
    exists t :: Grammatical(t, true) && Render(t) == s
  }

  // The recogniser accepts exactly the texts of the grammar's trees.
  lemma RecognisedIffGenerated(s: string)
    ensures Recognised(s) <==> InLanguage(s)
  {
    if Recognised(s) {
      var t := CodeTree(s, 0);
      assert Render(t) == s;
    }
    if InLanguage(s) {
      var t :| Grammatical(t, true) && Render(t) == s;
      Generated(s, 0, t, true);
    }
  }
}
