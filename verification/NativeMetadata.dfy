// Whether a masked projection of an application's secrets is consistent with
// the reviewed source: masks match anything, unmasked text must agree, and the
// rows must stand for all the secrets, one each.
module NativeMetadata {
  import opened Wrappers
  import opened SecretMatching

  // A JSON member: absent or null, a string, or any other value.
  datatype Field = Null | Text(text: string) | Other

  datatype NativeRow = NativeRow(name: Field, value: Field, keyVaultUrl: Field, identity: Field)

  datatype Secret =
    | ContainerApp(name: string)
    | KeyVault(name: string, keyVaultUrl: string, identity: string)

  datatype Refusal = CountDiffers | NameAbsent | NameDuplicated | MetadataDiffers | KindsDiffer

  const MAX_SECRETS := 8

  predicate Masked(s: string) {
    3 <= |s| <= 128 && forall c :: c in s ==> c == '*'
  }

  predicate MaskedOrEqual(actual: Field, expected: string) {
    actual.Text? && (Masked(actual.text) || actual.text == expected)
  }

  // Identities are compared after case folding, which is a parameter.
  predicate MaskedOrSame(fold: string -> string, actual: Field, expected: string) {
    actual.Text? && (Masked(actual.text) || fold(actual.text) == fold(expected))
  }

  // The row could be the masked projection of this secret.
  predicate Fits(fold: string -> string, row: NativeRow, secret: Secret) {
    && MaskedOrEqual(row.name, secret.name)
    && match secret
       case ContainerApp(_) =>
         row.keyVaultUrl.Null? && row.identity.Null?
         && (row.value.Null? || (row.value.Text? && Masked(row.value.text)))
       case KeyVault(_, url, identity) =>
         row.value.Null? && MaskedOrEqual(row.keyVaultUrl, url) && MaskedOrSame(fold, row.identity, identity)
  }

  // ----- The projections of one secret, written out

  function Stars(n: nat): string { seq(n, _ => '*') }

  ghost predicate Mask(f: Field) {
    exists n: nat :: 3 <= n <= 128 && f == Text(Stars(n))
  }

  // What a projection may show of a text: the text itself or a mask.
  ghost predicate Projects(f: Field, text: string) {
    f == Text(text) || Mask(f)
  }

  // Of an identity also any text that folds to the same.
  ghost predicate ProjectsFolded(fold: string -> string, f: Field, text: string) {
    Mask(f) || exists other :: f == Text(other) && fold(other) == fold(text)
  }

  lemma MaskedMeans(s: string)
    ensures Masked(s) <==> Mask(Text(s))
  {
    if Masked(s) {
      assert forall i :: 0 <= i < |s| ==> s[i] in s;
      assert s == Stars(|s|);
    }
  }

  // The rows that fit a secret of the application are its name, shown or masked,
  // and at most a mask for its value; those that fit one in a vault show or mask
  // name, address and identity, and no value at all.
  lemma FitsExactly(fold: string -> string, row: NativeRow, secret: Secret)
    ensures Fits(fold, row, secret) <==>
      match secret
      case ContainerApp(name) =>
        Projects(row.name, name) && (row.value == Null || Mask(row.value)) && row.keyVaultUrl == Null && row.identity == Null
      case KeyVault(name, url, identity) =>
        && Projects(row.name, name) && row.value == Null
        && Projects(row.keyVaultUrl, url) && ProjectsFolded(fold, row.identity, identity)
  {
    forall s ensures Masked(s) <==> Mask(Text(s)) {
      MaskedMeans(s);
    }
  }

  // ----- What acceptance means

  // Row r stands for secret f[r]; since there are as many rows as secrets,
  // every secret is stood for.
  ghost predicate Stands(fold: string -> string, rows: seq<NativeRow>, expected: seq<Secret>, f: seq<nat>) {
    && |f| == |rows| == |expected|
    && (forall r :: 0 <= r < |f| ==> f[r] < |expected| && Fits(fold, rows[r], expected[f[r]]))
    && (forall a, b :: 0 <= a < b < |f| ==> f[a] != f[b])
  }

  ghost predicate NamesDistinct(rows: seq<NativeRow>) {
    forall a, b :: 0 <= a < b < |rows| && rows[a].name.Text? && rows[a].name == rows[b].name
      ==> Masked(rows[a].name.text)
  }

  ghost predicate SourceNamesDistinct(expected: seq<Secret>) {
    forall a, b :: 0 <= a < b < |expected| ==> expected[a].name != expected[b].name
  }

  ghost predicate Consistent(fold: string -> string, rows: seq<NativeRow>, expected: seq<Secret>) {
    && |rows| == |expected| <= MAX_SECRETS
    && NamesDistinct(rows)
    && exists f :: Stands(fold, rows, expected, f)
  }

  // The source's own secret names are distinct, and then the separate test for
  // repeated row names refuses nothing that has an assignment.
  lemma {:induction false} DistinctnessImplied(fold: string -> string, rows: seq<NativeRow>, expected: seq<Secret>,
                                               f: seq<nat>)
    requires SourceNamesDistinct(expected) && Stands(fold, rows, expected, f)
    ensures NamesDistinct(rows)
  {
    forall a, b | 0 <= a < b < |rows| && rows[a].name.Text? && rows[a].name == rows[b].name
      ensures Masked(rows[a].name.text)
    {
      assert Fits(fold, rows[a], expected[f[a]]) && Fits(fold, rows[b], expected[f[b]]);
      assert expected[f[a]].name != expected[f[b]].name;
    }
  }

  // An accepted projection shows no value: at most masks stand in their place.
  lemma NoValueShown(fold: string -> string, rows: seq<NativeRow>, expected: seq<Secret>, r: nat)
    requires Consistent(fold, rows, expected) && r < |rows|
    ensures rows[r].value == Null || Mask(rows[r].value)
  {
    var f :| Stands(fold, rows, expected, f);
    FitsExactly(fold, rows[r], expected[f[r]]);
  }

  // Every secret is stood for by some row.
  lemma {:induction false} EverySecretStoodFor(fold: string -> string, rows: seq<NativeRow>, expected: seq<Secret>,
                                               f: seq<nat>, s: nat)
    requires Stands(fold, rows, expected, f) && s < |expected|
    ensures s in f
  {
    InjectiveOnto(f, s);
  }

  lemma {:induction false} InjectiveOnto(f: seq<nat>, s: nat)
    requires forall r :: 0 <= r < |f| ==> f[r] < |f|
    requires forall a, b :: 0 <= a < b < |f| ==> f[a] != f[b]
    requires s < |f|
    ensures s in f
  {
    var rows := Below(|f|);
    BelowMeans(|f|);
    if s !in f {
      forall r: nat | r in rows
        ensures r < |f| && f[r] in rows - {s}
      {
        assert f[r] in f;
      }
      assert |rows - {s}| == |f| - 1;
      InjectionSize(f, rows, rows - {s});
    }
  }

  ghost function Below(n: nat): set<nat> {
    if n == 0 then {} else Below(n - 1) + {n - 1}
  }

  lemma {:induction false} BelowMeans(n: nat)
    ensures |Below(n)| == n && forall k: nat :: k in Below(n) <==> k < n
  {
    if n > 0 {
      BelowMeans(n - 1);
    }
  }

  // ----- The validation

  function CandidatesOf(fold: string -> string, row: NativeRow, expected: seq<Secret>, n: nat): (c: seq<nat>)
    requires n <= |expected|
    ensures forall t: nat :: t in c <==> t < n && Fits(fold, row, expected[t])
  {
    if n == 0 then []
    else if Fits(fold, row, expected[n-1]) then CandidatesOf(fold, row, expected, n - 1) + [n - 1]
    else CandidatesOf(fold, row, expected, n - 1)
  }

  method CollectMatches(fold: string -> string, row: NativeRow, expected: seq<Secret>) returns (matches: seq<nat>)
    ensures matches == CandidatesOf(fold, row, expected, |expected|)
  {
    matches := [];
    for index := 0 to |expected|
      invariant matches == CandidatesOf(fold, row, expected, index)
    {
      if Fits(fold, row, expected[index]) {
        matches := matches + [index];
      }
    }
  }

  ghost function AllCandidates(fold: string -> string, rows: seq<NativeRow>, expected: seq<Secret>): Candidates {
    seq(|rows|, r requires 0 <= r < |rows| => CandidatesOf(fold, rows[r], expected, |expected|))
  }

  lemma AssignableIffStands(fold: string -> string, rows: seq<NativeRow>, expected: seq<Secret>)
    requires |rows| == |expected|
    ensures Assignable(AllCandidates(fold, rows, expected)) <==> exists f :: Stands(fold, rows, expected, f)
  {
    var candidates := AllCandidates(fold, rows, expected);
    forall f: seq<nat>
      ensures Assignment(candidates, f) <==> Stands(fold, rows, expected, f)
    {
    }
  }

  ghost predicate FitsSome(fold: string -> string, row: NativeRow, expected: seq<Secret>) {
    exists t :: 0 <= t < |expected| && Fits(fold, row, expected[t])
  }

  // What a refusal says is so.
  ghost predicate Justified(r: Refusal, fold: string -> string, rows: seq<NativeRow>, expected: seq<Secret>) {
    match r
    case CountDiffers => |rows| != |expected| || |expected| > 8
    case NameAbsent => exists a :: 0 <= a < |rows| && !rows[a].name.Text?
    case NameDuplicated =>
      exists a, b :: 0 <= a < b < |rows| && rows[a].name == rows[b].name && rows[a].name.Text? && !Mask(rows[a].name)
    case MetadataDiffers => exists a :: 0 <= a < |rows| && !FitsSome(fold, rows[a], expected)
    case KindsDiffer =>
      (forall a :: 0 <= a < |rows| ==> FitsSome(fold, rows[a], expected)) && !exists f :: Stands(fold, rows, expected, f)
  }

  ghost predicate Known(known: set<string>, rows: seq<NativeRow>) {
    forall n :: n in known <==> exists a :: 0 <= a < |rows| && rows[a].name == Text(n) && !Masked(n)
  }

  // One row's name, which must be there and, unless masked, new.
  method ReadName(row: NativeRow, known: set<string>, ghost rows: seq<NativeRow>)
    returns (r: Result<set<string>, Refusal>)
    requires Known(known, rows) && NamesDistinct(rows)
    ensures r.Ok? ==> Known(r.value, rows + [row]) && NamesDistinct(rows + [row])
    ensures r.Err? ==> r.error == if row.name.Text? then NameDuplicated else NameAbsent
    ensures r.Err? && row.name.Text? ==>
      !Mask(row.name) && exists a :: 0 <= a < |rows| && rows[a].name == row.name
  {
    if !row.name.Text? {
      return Err(NameAbsent);
    }
    assert (rows + [row])[|rows|] == row;
    assert forall a :: 0 <= a < |rows| ==> (rows + [row])[a] == rows[a];
    if Masked(row.name.text) {
      return Ok(known);
    }
    if row.name.text in known {
      MaskedMeans(row.name.text);
      return Err(NameDuplicated);
    }
    return Ok(known + {row.name.text});
  }

  ghost predicate ReadSoFar(fold: string -> string, rows: seq<NativeRow>, expected: seq<Secret>, known: set<string>,
                            candidates: Candidates) {
    && candidates == AllCandidates(fold, rows, expected)
    && Known(known, rows) && NamesDistinct(rows)
    && forall a :: 0 <= a < |rows| ==> FitsSome(fold, rows[a], expected)
  }

  // One row's candidates.
  method ReadRow(fold: string -> string, row: NativeRow, expected: seq<Secret>, known: set<string>,
                 candidates: Candidates,
                 ghost rows: seq<NativeRow>) returns (r: Result<(set<string>, Candidates), Refusal>)
    requires ReadSoFar(fold, rows, expected, known, candidates)
    ensures r.Ok? ==> ReadSoFar(fold, rows + [row], expected, r.value.0, r.value.1)
    ensures r.Err? ==> r.error.MetadataDiffers? || r.error == if row.name.Text? then NameDuplicated else NameAbsent
    ensures r.Err? && r.error.NameDuplicated? ==>
      !Mask(row.name) && exists a :: 0 <= a < |rows| && rows[a].name == row.name
    ensures r.Err? && r.error.MetadataDiffers? ==> CandidatesOf(fold, row, expected, |expected|) == []
  {
    var name :- ReadName(row, known, rows);
    var matches := CollectMatches(fold, row, expected);
    if matches == [] {
      return Err(MetadataDiffers);
    }
    assert matches[0] in matches;
    var more := rows + [row];
    assert more[|rows|] == row && forall a :: 0 <= a < |rows| ==> more[a] == rows[a];
    assert candidates + [matches] == AllCandidates(fold, more, expected);
    return Ok((name, candidates + [matches]));
  }

  // The candidates of every row, or what is wrong with the first bad one.
  method ReadRows(fold: string -> string, rows: seq<NativeRow>, expected: seq<Secret>)
    returns (r: Result<Candidates, Refusal>)
    ensures r.Ok? ==> exists known :: ReadSoFar(fold, rows, expected, known, r.value)
    ensures r.Err? ==> !(r.error.CountDiffers? || r.error.KindsDiffer?) && Justified(r.error, fold, rows, expected)
    ensures r.Err? ==> !Consistent(fold, rows, expected)
  {
    var known: set<string> := {};
    var candidates: Candidates := [];
    for i := 0 to |rows|
      invariant ReadSoFar(fold, rows[..i], expected, known, candidates)
    {
      assert rows[..i+1] == rows[..i] + [rows[i]];
      var row := ReadRow(fold, rows[i], expected, known, candidates, rows[..i]);
      if row.Err? {
        if row.error.MetadataDiffers? {
          NothingFits(fold, rows, expected, i);
        } else {
          RefusedName(fold, rows, expected, i);
        }
        return Err(row.error);
      }
      known, candidates := row.value.0, row.value.1;
    }
    assert rows[..|rows|] == rows;
    return Ok(candidates);
  }

  lemma RefusedName(fold: string -> string, rows: seq<NativeRow>, expected: seq<Secret>, i: nat)
    requires i < |rows|
    requires rows[i].name.Text? ==> !Mask(rows[i].name) && exists a :: 0 <= a < i && rows[..i][a].name == rows[i].name
    ensures Justified(if rows[i].name.Text? then NameDuplicated else NameAbsent, fold, rows, expected)
    ensures !Consistent(fold, rows, expected)
  {
    if rows[i].name.Text? {
      MaskedMeans(rows[i].name.text);
      var a :| 0 <= a < i && rows[..i][a].name == rows[i].name;
      assert rows[a].name == rows[i].name;
    } else if Consistent(fold, rows, expected) {
      ConsistentFits(fold, rows, expected, i);
    }
  }

  lemma ConsistentFits(fold: string -> string, rows: seq<NativeRow>, expected: seq<Secret>, i: nat)
    requires Consistent(fold, rows, expected) && i < |rows|
    ensures FitsSome(fold, rows[i], expected) && rows[i].name.Text?
  {
    var f :| Stands(fold, rows, expected, f);
    assert Fits(fold, rows[i], expected[f[i]]);
  }

  lemma NothingFits(fold: string -> string, rows: seq<NativeRow>, expected: seq<Secret>, i: nat)
    requires i < |rows| && CandidatesOf(fold, rows[i], expected, |expected|) == []
    ensures !FitsSome(fold, rows[i], expected) && !Consistent(fold, rows, expected)
  {
    forall t: nat | t < |expected| ensures !Fits(fold, rows[i], expected[t]) {
      assert t !in CandidatesOf(fold, rows[i], expected, |expected|);
    }
    if Consistent(fold, rows, expected) {
      ConsistentFits(fold, rows, expected, i);
    }
  }

  // Accepts exactly the consistent projections, and gives a true reason to
  // refuse any other.
  method ValidateSecrets(fold: string -> string, rows: seq<NativeRow>, expected: seq<Secret>)
    returns (refusal: Option<Refusal>)
    ensures refusal.None? <==> Consistent(fold, rows, expected)
    ensures refusal.Some? ==> Justified(refusal.value, fold, rows, expected)
  {
    if |rows| != |expected| || |expected| > MAX_SECRETS {
      return Some(CountDiffers);
    }
    var read := ReadRows(fold, rows, expected);
    if read.Err? {
      return Some(read.error);
    }
    AssignableIffStands(fold, rows, expected);
    var matcher := new Matcher(read.value);
    var all := matcher.MatchAll();
    return if all then None else Some(KindsDiffer);
  }
}
