// Source rows of the migration: which of them are carried over, as what items,
// and why the others are set aside.
module MemoryRows {
  import opened Wrappers

  const STATE := "state"

  type Key = (string, string)

  // The provenance an item carries: hashes of the source identity and text.
  datatype Provenance = Provenance(source: string, idHash: string, textHash: string)

  // Any document of the target store; `rest` is every other field.
  datatype Document = Document(kind: string, user: string, id: string, text: Option<string>, dimensions: nat,
                               migration: Option<Provenance>, rest: string)
  {
    function Key(): Key { (user, id) }
  }

  // Content hashes, the target identity derived from a source one, and which
  // texts can be hashed at all: those that can be encoded.
  datatype Naming = Naming(hash: string -> string, target: string -> string, encodable: string -> bool)
  {
    // No derived identity is that of the runtime's own document.
    ghost predicate Valid() { forall id :: target(id) != STATE }
  }

  // ----- Source rows

  datatype Stamp = Missing | Unparsable | At(time: string)

  datatype Number = Number(finite: bool, digits: string)

  datatype RunId = NoRun | NotText | Run(id: string)

  datatype Payload =
    | BadJson
    | NotAnObject
    | Fields(user: Option<string>, data: Option<string>, run: RunId, created: Stamp, updated: Stamp)

  // `TooLarge` is a list with an integer beyond the range of floats.
  datatype Embedding = NoVector | TooLarge | Vector(numbers: seq<Number>)

  datatype SourceRow = SourceRow(id: string, payload: Payload, embedding: Embedding)

  datatype Memory = Memory(id: string, user: string, text: string, embedding: seq<Number>, run: RunId, created: string, updated: string)

  datatype Parsed = Accepted(memory: Memory) | Quarantined(idHash: string, reason: string) | Aborted

  const DEFAULT_STAMP := "1970-01-01T00:00:00Z"

  function Time(s: Stamp, fallback: string): Option<string> {
    match s
    case Missing => Some(fallback)
    case Unparsable => None
    case At(time) => Some(time)
  }

  // A row that cannot be used is quarantined, but an identity or text that
  // cannot be encoded, an oversized number and a timestamp that is there but
  // cannot be read end the run.
  function Parse(row: SourceRow, dimensions: nat, strip: string -> string, naming: Naming): Parsed {
    if !naming.encodable(row.id) then Aborted
    else
      match row.payload
      case BadJson => Quarantined(naming.hash(row.id), "invalid_payload_json")
      case NotAnObject => Quarantined(naming.hash(row.id), "invalid_payload")
      case Fields(user, data, run, created, updated) =>
        if user.None? || strip(user.value) == "" then Quarantined(naming.hash(row.id), "missing_user_id")
        else if data.None? || strip(data.value) == "" then Quarantined(naming.hash(row.id), "missing_text")
        else ParseUsable(row, Memory(row.id, strip(user.value), strip(data.value), [], run, "", ""), created, updated, dimensions, naming)
  }

  function ParseUsable(row: SourceRow, m: Memory, created: Stamp, updated: Stamp, dimensions: nat,
                       naming: Naming): Parsed {
    match row.embedding
    case NoVector => Quarantined(naming.hash(row.id), "invalid_embedding")
    case TooLarge => Aborted
    case Vector(numbers) =>
      if |numbers| != dimensions then Quarantined(naming.hash(row.id), "wrong_embedding_dimensions")
      else if exists i :: 0 <= i < dimensions && !numbers[i].finite then
        Quarantined(naming.hash(row.id), "non_finite_embedding")
      else if m.run.NotText? then Quarantined(naming.hash(row.id), "invalid_session_id")
      else
        match Time(created, DEFAULT_STAMP)
        case None => Aborted
        case Some(at) =>
          match Time(updated, at)
          case None => Aborted
          case Some(last) =>
            if naming.encodable(m.text) then Accepted(m.(embedding := numbers, created := at, updated := last)) else Aborted
  }

  // `render` stands for the fields that are copied and never compared.
  function Build(m: Memory, naming: Naming, render: Memory -> string): Document {
    Document("memory", m.user, naming.target(m.id), Some(m.text), |m.embedding|,
             Some(Provenance("mem0", naming.hash(m.id), naming.hash(m.text))), render(m))
  }

  function ItemsOf(rows: seq<SourceRow>, parse: SourceRow -> Parsed, build: Memory -> Document): seq<Document> {
    if rows == [] then []
    else
      ItemsOf(rows[..|rows|-1], parse, build)
      + match parse(rows[|rows|-1])
        case Accepted(m) => [build(m)]
        case Quarantined(_, _) => []
        case Aborted => []
  }

  // The rows set aside, in order.
  function SetAside(rows: seq<SourceRow>, parse: SourceRow -> Parsed): seq<(string, string)> {
    if rows == [] then []
    else
      SetAside(rows[..|rows|-1], parse)
      + match parse(rows[|rows|-1])
        case Quarantined(idHash, reason) => [(idHash, reason)]
        case Accepted(_) => []
        case Aborted => []
  }

  function Parser(dimensions: nat, strip: string -> string, naming: Naming): SourceRow -> Parsed {
    row => Parse(row, dimensions, strip, naming)
  }

  function Builder(naming: Naming, render: Memory -> string): Memory -> Document {
    m => Build(m, naming, render)
  }

  // ----- What that says of the rows themselves

  ghost predicate Blank(text: Option<string>, strip: string -> string) {
    text.None? || strip(text.value) == ""
  }

  ghost predicate FiniteVector(e: Embedding, dimensions: nat) {
    e.Vector? && |e.numbers| == dimensions && forall i :: 0 <= i < dimensions ==> e.numbers[i].finite
  }

  // The time a stamp stands for, when a missing one stands for `fallback`.
  ghost predicate Stamps(s: Stamp, fallback: string, time: string) {
    (s == Missing && time == fallback) || s == At(time)
  }

  // A row that is carried over: a user and a text that are not blank, a finite
  // vector of the right length, a run that is absent or a text, readable stamps,
  // and an identity and a text that can be encoded.
  ghost predicate Carried(row: SourceRow, dimensions: nat, strip: string -> string, naming: Naming) {
    && row.payload.Fields? && naming.encodable(row.id)
    && !Blank(row.payload.user, strip) && !Blank(row.payload.data, strip)
    && FiniteVector(row.embedding, dimensions)
    && !row.payload.run.NotText? && !row.payload.created.Unparsable? && !row.payload.updated.Unparsable?
    && naming.encodable(strip(row.payload.data.value))
  }

  // Its memory: the row's own identity, user and text, whatever their order.
  ghost predicate MemoryOf(m: Memory, row: SourceRow, strip: string -> string) {
    && m.id == row.id
    && row.payload.Fields? && row.payload.user.Some? && row.payload.data.Some?
    && m.user == strip(row.payload.user.value) && m.text == strip(row.payload.data.value)
    && row.embedding == Vector(m.embedding) && m.run == row.payload.run
    && Stamps(row.payload.created, "1970-01-01T00:00:00Z", m.created)
    && Stamps(row.payload.updated, m.created, m.updated)
  }

  lemma CarriedExactly(row: SourceRow, dimensions: nat, strip: string -> string, naming: Naming, m: Memory)
    ensures Parse(row, dimensions, strip, naming) == Accepted(m) <==>
      Carried(row, dimensions, strip, naming) && MemoryOf(m, row, strip)
  {
  }

  // The first thing wrong with a row.
  ghost predicate Flawed(row: SourceRow, reason: string, dimensions: nat, strip: string -> string) {
    match row.payload
    case BadJson => reason == "invalid_payload_json"
    case NotAnObject => reason == "invalid_payload"
    case Fields(user, data, run, _, _) =>
      || (Blank(user, strip) && reason == "missing_user_id")
      || (!Blank(user, strip) && Blank(data, strip) && reason == "missing_text")
      || (!Blank(user, strip) && !Blank(data, strip) && FlawedVector(row.embedding, run, reason, dimensions))
  }

  ghost predicate FlawedVector(e: Embedding, run: RunId, reason: string, dimensions: nat) {
    || (e.NoVector? && reason == "invalid_embedding")
    || (e.Vector? && |e.numbers| != dimensions && reason == "wrong_embedding_dimensions")
    || (e.Vector? && |e.numbers| == dimensions && !FiniteVector(e, dimensions) && reason == "non_finite_embedding")
    || (FiniteVector(e, dimensions) && run.NotText? && reason == "invalid_session_id")
  }

  lemma SetAsideExactly(row: SourceRow, dimensions: nat, strip: string -> string, naming: Naming, idHash: string,
                        reason: string)
    ensures Parse(row, dimensions, strip, naming) == Quarantined(idHash, reason) <==>
      naming.encodable(row.id) && idHash == naming.hash(row.id) && Flawed(row, reason, dimensions, strip)
  {
  }

  // A row that ends the run: one whose identity or text cannot be encoded, with
  // a number too large, or with a stamp that is there but cannot be read, and
  // nothing wrong with it before that.
  ghost predicate Fatal(row: SourceRow, dimensions: nat, strip: string -> string, naming: Naming) {
    || !naming.encodable(row.id)
    || (row.payload.Fields? && !Blank(row.payload.user, strip) && !Blank(row.payload.data, strip)
        && (|| row.embedding.TooLarge?
            || (FiniteVector(row.embedding, dimensions) && !row.payload.run.NotText?
                && (row.payload.created.Unparsable? || row.payload.updated.Unparsable?
                    || !naming.encodable(strip(row.payload.data.value))))))
  }

  lemma FatalExactly(row: SourceRow, dimensions: nat, strip: string -> string, naming: Naming)
    ensures Parse(row, dimensions, strip, naming).Aborted? <==> Fatal(row, dimensions, strip, naming)
  {
  }

  // Some row ends the run.
  ghost predicate Unreadable(rows: seq<SourceRow>, dimensions: nat, strip: string -> string, naming: Naming) {
    exists r :: r in rows && Fatal(r, dimensions, strip, naming)
  }

  lemma SomeAborted(rows: seq<SourceRow>, dimensions: nat, strip: string -> string, naming: Naming)
    ensures Unreadable(rows, dimensions, strip, naming) <==>
      exists r :: r in rows && Parser(dimensions, strip, naming)(r).Aborted?
  {
    forall r ensures Parser(dimensions, strip, naming)(r).Aborted? <==> Fatal(r, dimensions, strip, naming) {
      FatalExactly(r, dimensions, strip, naming);
    }
  }

  // The item of a row: its own user and text, under the target of its own
  // identity, with the hashes of that identity and text and the vector's length;
  // the rest of it renders the row's memory.
  ghost predicate ItemFor(item: Document, row: SourceRow, strip: string -> string, naming: Naming,
                          render: Memory -> string) {
    && row.payload.Fields? && row.payload.user.Some? && row.payload.data.Some? && row.embedding.Vector?
    && item.kind == "memory" && item.id == naming.target(row.id)
    && item.user == strip(row.payload.user.value)
    && item.text == Some(strip(row.payload.data.value))
    && item.dimensions == |row.embedding.numbers|
    && item.migration.Some? && item.migration.value.source == "mem0"
    && item.migration.value.idHash == naming.hash(row.id)
    && item.migration.value.textHash == naming.hash(strip(row.payload.data.value))
    && exists m :: MemoryOf(m, row, strip) && item.rest == render(m)
  }

  // The positions of some of the rows, in order.
  ghost predicate Positions(at: seq<nat>, rows: nat) {
    && (forall k :: 0 <= k < |at| ==> at[k] < rows)
    && (forall j, k :: 0 <= j < k < |at| ==> at[j] < at[k])
  }

  // The items are, in order, one for each row that is carried over.
  ghost predicate Mirrors(items: seq<Document>, rows: seq<SourceRow>, dimensions: nat, strip: string -> string,
                          naming: Naming, render: Memory -> string) {
    exists at: seq<nat> :: Positions(at, |rows|) && MirrorsAt(items, rows, at, dimensions, strip, naming, render)
  }

  ghost predicate MirrorsAt(items: seq<Document>, rows: seq<SourceRow>, at: seq<nat>, dimensions: nat,
                            strip: string -> string, naming: Naming, render: Memory -> string)
    requires Positions(at, |rows|)
  {
    && |items| == |at|
    && (forall i :: 0 <= i < |rows| ==> (i in at <==> Carried(rows[i], dimensions, strip, naming)))
    && (forall k :: 0 <= k < |at| ==> ItemFor(items[k], rows[at[k]], strip, naming, render))
  }

  lemma {:induction false} ItemsMirror(rows: seq<SourceRow>, dimensions: nat, strip: string -> string, naming: Naming,
                                       render: Memory -> string)
    ensures Mirrors(ItemsOf(rows, Parser(dimensions, strip, naming), Builder(naming, render)), rows, dimensions, strip, naming, render)
  {
    var parse, build := Parser(dimensions, strip, naming), Builder(naming, render);
    if rows == [] {
      assert Positions([], 0) && MirrorsAt([], [], [], dimensions, strip, naming, render);
    } else {
      var prefix, last := rows[..|rows|-1], rows[|rows|-1];
      ItemsMirror(prefix, dimensions, strip, naming, render);
      MirrorsOneMore(ItemsOf(prefix, parse, build), prefix, last, dimensions, strip, naming, render);
      assert rows == prefix + [last];
    }
  }

  lemma MirrorsOneMore(items: seq<Document>, prefix: seq<SourceRow>, last: SourceRow, dimensions: nat,
                       strip: string -> string, naming: Naming, render: Memory -> string)
    requires Mirrors(items, prefix, dimensions, strip, naming, render)
    ensures var p := Parse(last, dimensions, strip, naming);
      Mirrors(items + if p.Accepted? then [Build(p.memory, naming, render)] else [], prefix + [last], dimensions, strip, naming, render)
  {
    var p := Parse(last, dimensions, strip, naming);
    var at: seq<nat> :| Positions(at, |prefix|) && MirrorsAt(items, prefix, at, dimensions, strip, naming, render);
    if p.Accepted? {
      CarriedExactly(last, dimensions, strip, naming, p.memory);
      assert ItemFor(Build(p.memory, naming, render), last, strip, naming, render);
      MirrorsMore(items, Build(p.memory, naming, render), prefix, last, at, dimensions, strip, naming, render);
    } else {
      NotCarried(last, dimensions, strip, naming);
      MirrorsSame(items, prefix, last, at, dimensions, strip, naming, render);
      assert items + [] == items;
    }
  }

  lemma CarriedParses(row: SourceRow, dimensions: nat, strip: string -> string, naming: Naming)
    requires Carried(row, dimensions, strip, naming)
    ensures var p := Parse(row, dimensions, strip, naming); p.Accepted? && MemoryOf(p.memory, row, strip)
  {
    var created := if row.payload.created.At? then row.payload.created.time else "1970-01-01T00:00:00Z";
    var updated := if row.payload.updated.At? then row.payload.updated.time else created;
    CarriedExactly(row, dimensions, strip, naming,
                   Memory(row.id, strip(row.payload.user.value), strip(row.payload.data.value), row.embedding.numbers,
                          row.payload.run, created, updated));
  }

  lemma MirrorsMore(items: seq<Document>, item: Document, prefix: seq<SourceRow>, last: SourceRow, at: seq<nat>,
                    dimensions: nat, strip: string -> string, naming: Naming, render: Memory -> string)
    requires Positions(at, |prefix|) && MirrorsAt(items, prefix, at, dimensions, strip, naming, render)
    requires Carried(last, dimensions, strip, naming) && ItemFor(item, last, strip, naming, render)
    ensures Mirrors(items + [item], prefix + [last], dimensions, strip, naming, render)
  {
    var rows, more := prefix + [last], at + [|prefix|];
    assert Positions(more, |rows|);
    assert forall i :: 0 <= i < |prefix| ==> rows[i] == prefix[i] && (i in more <==> i in at);
    assert MirrorsAt(items + [item], rows, more, dimensions, strip, naming, render);
  }

  lemma MirrorsSame(items: seq<Document>, prefix: seq<SourceRow>, last: SourceRow, at: seq<nat>,
                    dimensions: nat, strip: string -> string, naming: Naming, render: Memory -> string)
    requires Positions(at, |prefix|) && MirrorsAt(items, prefix, at, dimensions, strip, naming, render)
    requires !Carried(last, dimensions, strip, naming)
    ensures Mirrors(items, prefix + [last], dimensions, strip, naming, render)
  {
    var rows := prefix + [last];
    assert forall i :: 0 <= i < |prefix| ==> rows[i] == prefix[i];
    assert MirrorsAt(items, rows, at, dimensions, strip, naming, render);
  }

  // The quarantine names, in order, every row with a flaw, by the hash of its
  // identity and the first thing wrong with it.
  ghost predicate Quarantines(entries: seq<(string, string)>, rows: seq<SourceRow>, dimensions: nat,
                              strip: string -> string, naming: Naming) {
    exists at: seq<nat> :: Positions(at, |rows|) && QuarantinesAt(entries, rows, at, dimensions, strip, naming)
  }

  ghost predicate QuarantinesAt(entries: seq<(string, string)>, rows: seq<SourceRow>, at: seq<nat>, dimensions: nat,
                                strip: string -> string, naming: Naming)
    requires Positions(at, |rows|)
  {
    && |entries| == |at|
    && (forall i :: 0 <= i < |rows| && !Fatal(rows[i], dimensions, strip, naming) ==>
          (i in at <==> !Carried(rows[i], dimensions, strip, naming)))
    && (forall k :: 0 <= k < |at| ==>
          entries[k].0 == naming.hash(rows[at[k]].id) && Flawed(rows[at[k]], entries[k].1, dimensions, strip))
  }

  lemma {:induction false} AsideQuarantines(rows: seq<SourceRow>, dimensions: nat, strip: string -> string,
                                            naming: Naming)
    requires !Unreadable(rows, dimensions, strip, naming)
    ensures Quarantines(SetAside(rows, Parser(dimensions, strip, naming)), rows, dimensions, strip, naming)
  {
    if rows == [] {
      assert Positions([], 0) && QuarantinesAt([], [], [], dimensions, strip, naming);
    } else {
      var prefix, last := rows[..|rows|-1], rows[|rows|-1];
      assert rows == prefix + [last] && last in rows;
      assert forall r :: r in prefix ==> r in rows;
      AsideQuarantines(prefix, dimensions, strip, naming);
      QuarantinesOneMore(SetAside(prefix, Parser(dimensions, strip, naming)), prefix, last, dimensions, strip, naming);
    }
  }

  lemma QuarantinesOneMore(entries: seq<(string, string)>, prefix: seq<SourceRow>, last: SourceRow, dimensions: nat,
                           strip: string -> string, naming: Naming)
    requires Quarantines(entries, prefix, dimensions, strip, naming) && !Fatal(last, dimensions, strip, naming)
    ensures var p := Parse(last, dimensions, strip, naming);
      Quarantines(entries + if p.Quarantined? then [(p.idHash, p.reason)] else [], prefix + [last], dimensions, strip, naming)
  {
    var p := Parse(last, dimensions, strip, naming);
    var at: seq<nat> :| Positions(at, |prefix|) && QuarantinesAt(entries, prefix, at, dimensions, strip, naming);
    FatalExactly(last, dimensions, strip, naming);
    if p.Quarantined? {
      SetAsideExactly(last, dimensions, strip, naming, p.idHash, p.reason);
      NotCarried(last, dimensions, strip, naming);
      QuarantinesMore(entries, (p.idHash, p.reason), prefix, last, at, dimensions, strip, naming);
    } else {
      CarriedExactly(last, dimensions, strip, naming, p.memory);
      QuarantinesSame(entries, prefix, last, at, dimensions, strip, naming);
      assert entries + [] == entries;
    }
  }

  lemma NotCarried(row: SourceRow, dimensions: nat, strip: string -> string, naming: Naming)
    requires !Parse(row, dimensions, strip, naming).Accepted?
    ensures !Carried(row, dimensions, strip, naming)
  {
    if Carried(row, dimensions, strip, naming) {
      CarriedParses(row, dimensions, strip, naming);
    }
  }

  lemma QuarantinesMore(entries: seq<(string, string)>, entry: (string, string), prefix: seq<SourceRow>,
                        last: SourceRow,
                        at: seq<nat>, dimensions: nat, strip: string -> string, naming: Naming)
    requires Positions(at, |prefix|) && QuarantinesAt(entries, prefix, at, dimensions, strip, naming)
    requires !Carried(last, dimensions, strip, naming)
    requires entry.0 == naming.hash(last.id) && Flawed(last, entry.1, dimensions, strip)
    ensures Quarantines(entries + [entry], prefix + [last], dimensions, strip, naming)
  {
    var rows, more := prefix + [last], at + [|prefix|];
    assert Positions(more, |rows|);
    assert forall i :: 0 <= i < |prefix| ==> rows[i] == prefix[i] && (i in more <==> i in at);
    assert QuarantinesAt(entries + [entry], rows, more, dimensions, strip, naming);
  }

  lemma QuarantinesSame(entries: seq<(string, string)>, prefix: seq<SourceRow>, last: SourceRow, at: seq<nat>,
                        dimensions: nat, strip: string -> string, naming: Naming)
    requires Positions(at, |prefix|) && QuarantinesAt(entries, prefix, at, dimensions, strip, naming)
    requires Carried(last, dimensions, strip, naming)
    ensures Quarantines(entries, prefix + [last], dimensions, strip, naming)
  {
    var rows := prefix + [last];
    assert forall i :: 0 <= i < |prefix| ==> rows[i] == prefix[i];
    assert QuarantinesAt(entries, rows, at, dimensions, strip, naming);
  }
}
