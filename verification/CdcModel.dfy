/** Change data capture, services/cdc_connector.py: what buffering and batching do to the store. */
module CdcModel {
  import opened Prelude
  import opened StableSort

  type Vector(==, !new)

  /** Column values, as text. */
  type Row = map<string, string>

  datatype Event = Event(op: string, before: Row, after: Row, ts: int)

  datatype Config = Config(name: string, batchSize: int, fieldMapping: map<string, string>,
                           textColumns: seq<string>, idColumn: string)

  datatype Metadata = Metadata(fields: Row, source: Row, op: string, ts: int)

  datatype Doc = Doc(vector: Vector, metadata: Metadata)

  /** The vector collection, keyed by vector id. */
  type Store = map<string, Doc>

  /** The embedding callback on one batch of texts; None stands for an exception. */
  type EmbedFn = seq<string> -> Option<seq<Vector>>

  /** The callbacks set on the connector. */
  datatype Callbacks = Callbacks(embed: Option<EmbedFn>, ingest: bool, delete: bool)

  // ---------------------------------------------------------------- reading an event

  predicate IsDelete(e: Event) {
    e.op == "d"
  }

  function Source(e: Event): Row {
    if e.after != map[] then e.after else e.before
  }

  function GetId(c: Config, e: Event): string {
    if c.idColumn in Source(e) then Source(e)[c.idColumn] else ""
  }

  function Parts(row: Row, columns: seq<string>): seq<string> {
    if columns == [] then [] else
      var rest := Parts(row, columns[1..]);
      if columns[0] in row && row[columns[0]] != "" then [row[columns[0]]] + rest else rest
  }

  function Join(parts: seq<string>): string {
    if parts == [] then "" else if |parts| == 1 then parts[0] else parts[0] + " " + Join(parts[1..])
  }

  function GetText(c: Config, e: Event): string {
    Join(Parts(Source(e), c.textColumns))
  }

  /** Columns are read one after the other, and those missing or empty are skipped. */
  lemma {:induction false} PartsInOrder(row: Row, a: seq<string>, b: seq<string>)
    ensures Parts(row, a + b) == Parts(row, a) + Parts(row, b)
  {
    if a == [] {
      assert a + b == b;
    } else {
      assert (a + b)[1..] == a[1..] + b;
      PartsInOrder(row, a[1..], b);
    }
  }

  lemma PartOf(row: Row, column: string)
    ensures Parts(row, [column]) == if column in row && row[column] != "" then [row[column]] else []
  {
    assert [column][1..] == [] && Parts(row, []) == [];
  }

  /** The words of a text that are separated by single spaces. */
  function Words(text: string): (words: seq<string>)
    ensures words != []
  {
    if text == "" then [""] else
      var rest := Words(text[1..]);
      if text[0] == ' ' then [""] + rest else [[text[0]] + rest[0]] + rest[1..]
  }

  lemma {:induction false} WordsAfter(word: string, text: string)
    requires ' ' !in word
    ensures Words(word + " " + text) == [word] + Words(text)
  {
    if word == "" {
      assert (word + " " + text)[1..] == text;
    } else {
      assert (word + " " + text)[1..] == word[1..] + " " + text && word[0] in word;
      WordsAfter(word[1..], text);
      assert [word[0]] + word[1..] == word;
    }
  }

  lemma {:induction false} OneWord(word: string)
    requires ' ' !in word
    ensures Words(word) == [word]
  {
    if word == "" {
    } else {
      OneWord(word[1..]);
      assert word[0] in word && [word[0]] + word[1..] == word;
    }
  }

  /** What is joined can be told apart again: single spaces separate the parts, in order. */
  lemma {:induction false} JoinedInWords(parts: seq<string>)
    requires forall i :: 0 <= i < |parts| ==> ' ' !in parts[i]
    ensures Words(Join(parts)) == if parts == [] then [""] else parts
  {
    if parts == [] {
    } else if |parts| == 1 {
      OneWord(parts[0]);
    } else {
      JoinedInWords(parts[1..]);
      WordsAfter(parts[0], Join(parts[1..]));
    }
  }

  /** The same with parts that hold spaces themselves. */
  lemma {:induction false} JoinSplits(a: seq<string>, b: seq<string>)
    requires a != [] && b != []
    ensures Join(a + b) == Join(a) + " " + Join(b)
  {
    if |a| == 1 {
      assert (a + b)[1..] == b;
    } else {
      assert (a + b)[1..] == a[1..] + b;
      JoinSplits(a[1..], b);
    }
  }

  function GetMetadata(c: Config, e: Event): Metadata {
    Metadata(map t | t in c.fieldMapping && c.fieldMapping[t] in Source(e) :: Source(e)[c.fieldMapping[t]],
             Source(e), e.op, e.ts)
  }

  /** The characters str.strip() removes. */
  predicate IsSpace(ch: char) {
    var n := ch as int;
    || 9 <= n <= 13 || 28 <= n <= 32 || n == 0x85 || n == 0xA0 || n == 0x1680 || 0x2000 <= n <= 0x200A
    || n == 0x2028 || n == 0x2029 || n == 0x202F || n == 0x205F || n == 0x3000
  }

  /** Of the ASCII characters those from tab to carriage return, the four separators and the space; of the
      others the next line, the spaces of the general punctuation block and six more. */
  lemma SpacesAre(ch: char)
    ensures ch as int < 128 ==> (IsSpace(ch) <==> '\t' <= ch <= '\r' || 28 <= ch as int < 32 || ch == ' ')
    ensures ch as int >= 128 ==>
              (IsSpace(ch) <==>
               ch as int in {0x85, 0xA0, 0x1680, 0x2000, 0x2001, 0x2002, 0x2003, 0x2004, 0x2005, 0x2006, 0x2007,
                             0x2008, 0x2009, 0x200A, 0x2028, 0x2029, 0x202F, 0x205F, 0x3000})
  {
  }

  /** text.strip() is empty. */
  predicate Blank(text: string) {
    forall i :: 0 <= i < |text| ==> IsSpace(text[i])
  }

  function VectorId(c: Config, e: Event): string {
    "cdc_" + c.name + "_" + GetId(c, e)
  }

  // ---------------------------------------------------------------- one batch

  /** The creates and updates that have text. */
  function Upserts(c: Config, events: seq<Event>): seq<Event> {
    if events == [] then [] else
      var e := events[|events| - 1];
      Upserts(c, events[..|events| - 1]) + if !IsDelete(e) && !Blank(GetText(c, e)) then [e] else []
  }

  function Texts(c: Config, events: seq<Event>): (texts: seq<string>)
    ensures |texts| == |events| && forall i :: 0 <= i < |texts| ==> texts[i] == GetText(c, events[i])
  {
    seq(|events|, i requires 0 <= i < |events| => GetText(c, events[i]))
  }

  function Deletes(events: seq<Event>): seq<Event> {
    if events == [] then [] else
      Deletes(events[..|events| - 1]) + if IsDelete(events[|events| - 1]) then [events[|events| - 1]] else []
  }

  /** zip(creates_updates, vectors), ingested one by one. */
  function IngestAll(c: Config, store: Store, upserts: seq<Event>, vectors: seq<Vector>): Store
    decreases |upserts|
  {
    if upserts == [] || vectors == [] then store else
      var doc := Doc(vectors[0], GetMetadata(c, upserts[0]));
      IngestAll(c, store[VectorId(c, upserts[0]) := doc], upserts[1..], vectors[1..])
  }

  function DeleteAll(c: Config, store: Store, deletes: seq<Event>): Store {
    if deletes == [] then store else
      DeleteAll(c, store, deletes[..|deletes| - 1]) - {VectorId(c, deletes[|deletes| - 1])}
  }

  function ProcessBatch(c: Config, cb: Callbacks, store: Store, events: seq<Event>): Store {
    var upserts := Upserts(c, events);
    var deleted := (s: Store) => if cb.delete then DeleteAll(c, s, Deletes(events)) else s;
    if upserts == [] || cb.embed == None then deleted(store) else
    match cb.embed.value(Texts(c, upserts))
    case None => store
    case Some(vectors) => deleted(if cb.ingest then IngestAll(c, store, upserts, vectors) else store)
  }

  // ---------------------------------------------------------------- one event

  /** What processing one event alone does to the store, whatever callbacks are set: row is the new row, or
      the old one if there is no new one. */
  ghost predicate DoesAlone(c: Config, cb: Callbacks, store: Store, e: Event, row: Row, store': Store) {
    var id := "cdc_" + c.name + "_" + if c.idColumn in row then row[c.idColumn] else "";
    var text := Join(Parts(row, c.textColumns));
    var vectors := if cb.embed.Some? then cb.embed.value([text]) else None;
    var fields := map t | t in c.fieldMapping && c.fieldMapping[t] in row :: row[c.fieldMapping[t]];
    if e.op == "d" then store' == if cb.delete then store - {id} else store
    else if (exists i :: 0 <= i < |text| && !IsSpace(text[i])) && vectors.Some? && vectors.value != [] && cb.ingest then
      store' == store[id := Doc(vectors.value[0], Metadata(fields, row, e.op, e.ts))]
    else store' == store
  }

  lemma OneEvent(c: Config, e: Event)
    ensures Upserts(c, [e]) == if !IsDelete(e) && !Blank(GetText(c, e)) then [e] else []
    ensures Deletes([e]) == if IsDelete(e) then [e] else []
  {
    assert [e][..0] == [];
  }

  lemma DeleteOne(c: Config, store: Store, e: Event)
    ensures DeleteAll(c, store, [e]) == store - {VectorId(c, e)} && DeleteAll(c, store, []) == store
  {
    assert [e][..0] == [];
  }

  /** An update or create ingests its new row: its id, its text and its metadata. A delete removes the id of
      the row it still carries. */
  lemma EventAlone(c: Config, cb: Callbacks, store: Store, e: Event, row: Row)
    requires if e.after != map[] then row == e.after else row == e.before
    ensures DoesAlone(c, cb, store, e, row, ProcessBatch(c, cb, store, [e]))
  {
    OneEvent(c, e);
    DeleteOne(c, store, e);
    if !IsDelete(e) && !Blank(GetText(c, e)) {
      assert Texts(c, [e]) == [GetText(c, e)];
      if cb.embed.Some? && cb.embed.value([GetText(c, e)]).Some? {
        IngestOne(c, store, e, cb.embed.value([GetText(c, e)]).value);
      }
    }
  }

  lemma IngestOne(c: Config, store: Store, e: Event, vectors: seq<Vector>)
    ensures IngestAll(c, store, [e], vectors) ==
            if vectors == [] then store else store[VectorId(c, e) := Doc(vectors[0], GetMetadata(c, e))]
  {
  }

  lemma PrefixKeepsApart(prefix: string, a: string, b: string)
    ensures prefix + a == prefix + b <==> a == b
  {
    assert (prefix + a)[|prefix|..] == a && (prefix + b)[|prefix|..] == b;
  }

  /** So an update that changes the id column stores the row under the new id and leaves what was stored under
      the old one. */
  lemma ChangedIdKeepsOld(c: Config, cb: Callbacks, store: Store, e: Event)
    requires e.op != "d" && c.idColumn in e.before && c.idColumn in e.after
    requires e.before[c.idColumn] != e.after[c.idColumn]
    ensures Find(ProcessBatch(c, cb, store, [e]), "cdc_" + c.name + "_" + e.before[c.idColumn]) ==
            Find(store, "cdc_" + c.name + "_" + e.before[c.idColumn])
  {
    var prefix, was, now := "cdc_" + c.name + "_", e.before[c.idColumn], e.after[c.idColumn];
    EventAlone(c, cb, store, e, e.after);
    PrefixKeepsApart(prefix, was, now);
  }

  // ---------------------------------------------------------------- applying in order

  /** What an event should do on its own, embedding its text with embed. */
  function Apply(c: Config, embed: string -> Vector, store: Store, e: Event): Store {
    if IsDelete(e) then store - {VectorId(c, e)}
    else if Blank(GetText(c, e)) then store
    else store[VectorId(c, e) := Doc(embed(GetText(c, e)), GetMetadata(c, e))]
  }

  function InOrder(c: Config, embed: string -> Vector, store: Store, events: seq<Event>): Store {
    if events == [] then store else
      Apply(c, embed, InOrder(c, embed, store, events[..|events| - 1]), events[|events| - 1])
  }

  /** All callbacks are set, and texts are embedded one by one whatever else is in the batch. */
  ghost predicate Works(cb: Callbacks, embed: string -> Vector) {
    && cb.ingest && cb.delete && cb.embed.Some?
    && forall texts: seq<string> ::
         cb.embed.value(texts) == Some(seq(|texts|, i requires 0 <= i < |texts| => embed(texts[i])))
  }

  /** The embedding of the batch's texts raises. */
  predicate Fails(c: Config, cb: Callbacks, events: seq<Event>) {
    Upserts(c, events) != [] && cb.embed.Some? && cb.embed.value(Texts(c, Upserts(c, events))) == None
  }

  /** The callbacks do their work on this batch. */
  predicate WorksOn(c: Config, cb: Callbacks, embed: string -> Vector, events: seq<Event>) {
    && cb.ingest && cb.delete && cb.embed.Some?
    && (Upserts(c, events) != [] ==>
          cb.embed.value(Texts(c, Upserts(c, events))) == Some(Embedded(c, embed, Upserts(c, events))))
  }

  /** All callbacks are set, and the embedding of a batch may raise. */
  ghost predicate MayFail(c: Config, cb: Callbacks, embed: string -> Vector) {
    && cb.ingest && cb.delete && cb.embed.Some?
    && forall events: seq<Event> :: Fails(c, cb, events) || WorksOn(c, cb, embed, events)
  }

  lemma WorksOnAny(c: Config, cb: Callbacks, embed: string -> Vector, events: seq<Event>)
    requires Works(cb, embed)
    ensures WorksOn(c, cb, embed, events) && !Fails(c, cb, events)
  {
    var us := Upserts(c, events);
    var texts := Texts(c, us);
    assert seq(|texts|, i requires 0 <= i < |texts| => embed(texts[i])) == Embedded(c, embed, us);
  }

  predicate Deleted(c: Config, events: seq<Event>, id: string) {
    exists i :: 0 <= i < |events| && IsDelete(events[i]) && VectorId(c, events[i]) == id
  }

  /** What the last create or update with text leaves for an id. */
  function LastUpsert(c: Config, embed: string -> Vector, events: seq<Event>, id: string): Option<Doc> {
    if events == [] then None else
      var e := events[|events| - 1];
      if !IsDelete(e) && !Blank(GetText(c, e)) && VectorId(c, e) == id
      then Some(Doc(embed(GetText(c, e)), GetMetadata(c, e)))
      else LastUpsert(c, embed, events[..|events| - 1], id)
  }

  /** An id is recreated if it is deleted in the batch, and a create or update with text follows
      its last delete. */
  predicate Recreated(c: Config, events: seq<Event>, id: string) {
    if events == [] then false else
      var e := events[|events| - 1];
      if VectorId(c, e) == id && IsDelete(e) then false
      else if VectorId(c, e) == id && !Blank(GetText(c, e)) then Deleted(c, events, id)
      else Recreated(c, events[..|events| - 1], id)
  }

  lemma DeletedOneMore(c: Config, events: seq<Event>, id: string)
    requires events != []
    ensures Deleted(c, events, id) <==>
            Deleted(c, events[..|events| - 1], id) ||
            (IsDelete(events[|events| - 1]) && VectorId(c, events[|events| - 1]) == id)
  {
    var init := events[..|events| - 1];
    if i :| 0 <= i < |init| && IsDelete(init[i]) && VectorId(c, init[i]) == id {
      assert events[i] == init[i];
    }
  }

  lemma {:induction false} InOrderAt(c: Config, embed: string -> Vector, store: Store, events: seq<Event>, id: string)
    ensures Find(InOrder(c, embed, store, events), id) ==
            if Deleted(c, events, id) && !Recreated(c, events, id) then None
            else if LastUpsert(c, embed, events, id).Some? then LastUpsert(c, embed, events, id)
            else Find(store, id)
    ensures Recreated(c, events, id) ==> LastUpsert(c, embed, events, id).Some? && Deleted(c, events, id)
  {
    if events == [] {
    } else {
      InOrderAt(c, embed, store, events[..|events| - 1], id);
      DeletedOneMore(c, events, id);
    }
  }

  function Find(store: Store, id: string): Option<Doc> {
    if id in store then Some(store[id]) else None
  }

  lemma DeletesOneMore(init: seq<Event>, e: Event)
    ensures Deletes(init + [e]) == if IsDelete(e) then Deletes(init) + [e] else Deletes(init)
  {
    assert (init + [e])[..|init|] == init;
  }

  lemma DeleteAllOneMore(c: Config, store: Store, deletes: seq<Event>, e: Event)
    ensures DeleteAll(c, store, deletes + [e]) == DeleteAll(c, store, deletes) - {VectorId(c, e)}
  {
    assert (deletes + [e])[..|deletes|] == deletes;
  }

  lemma FindRemoved(store: Store, k: string, id: string)
    ensures Find(store - {k}, id) == if k == id then None else Find(store, id)
  {
  }

  lemma {:induction false} DeleteAllAt(c: Config, store: Store, events: seq<Event>, id: string)
    ensures Find(DeleteAll(c, store, Deletes(events)), id) == if Deleted(c, events, id) then None else Find(store, id)
  {
    if events == [] {
    } else {
      var init, e := events[..|events| - 1], events[|events| - 1];
      assert events == init + [e];
      DeleteAllAt(c, store, init, id);
      DeletedOneMore(c, events, id);
      DeletesOneMore(init, e);
      DeleteAllOneMore(c, store, Deletes(init), e);
      FindRemoved(DeleteAll(c, store, Deletes(init)), VectorId(c, e), id);
    }
  }

  /** Ingesting one by one from the front is applying in order. */
  lemma {:induction false} IngestSnoc(c: Config, store: Store, upserts: seq<Event>, vectors: seq<Vector>,
                                      e: Event, v: Vector)
    requires |upserts| == |vectors|
    ensures IngestAll(c, store, upserts + [e], vectors + [v]) ==
            IngestAll(c, store, upserts, vectors)[VectorId(c, e) := Doc(v, GetMetadata(c, e))]
    decreases |upserts|
  {
    if upserts == [] {
      assert (upserts + [e])[1..] == [] && (vectors + [v])[1..] == [];
    } else {
      var store' := store[VectorId(c, upserts[0]) := Doc(vectors[0], GetMetadata(c, upserts[0]))];
      IngestSnoc(c, store', upserts[1..], vectors[1..], e, v);
      assert (upserts + [e])[1..] == upserts[1..] + [e];
      assert (vectors + [v])[1..] == vectors[1..] + [v];
    }
  }

  function Embedded(c: Config, embed: string -> Vector, events: seq<Event>): (vs: seq<Vector>)
    ensures |vs| == |events| && forall i :: 0 <= i < |vs| ==> vs[i] == embed(GetText(c, events[i]))
  {
    seq(|events|, i requires 0 <= i < |events| => embed(GetText(c, events[i])))
  }

  lemma FindUpdated(store: Store, k: string, d: Doc, id: string)
    ensures Find(store[k := d], id) == if k == id then Some(d) else Find(store, id)
  {
  }

  lemma UpsertsOneMore(c: Config, init: seq<Event>, e: Event)
    ensures Upserts(c, init + [e]) ==
            if !IsDelete(e) && !Blank(GetText(c, e)) then Upserts(c, init) + [e] else Upserts(c, init)
  {
    assert (init + [e])[..|init|] == init;
  }

  function Ingested(c: Config, embed: string -> Vector, store: Store, upserts: seq<Event>): Store {
    IngestAll(c, store, upserts, Embedded(c, embed, upserts))
  }

  lemma IngestedOneMore(c: Config, embed: string -> Vector, store: Store, us: seq<Event>, e: Event)
    ensures Ingested(c, embed, store, us + [e]) ==
            Ingested(c, embed, store, us)[VectorId(c, e) := Doc(embed(GetText(c, e)), GetMetadata(c, e))]
  {
    IngestSnoc(c, store, us, Embedded(c, embed, us), e, embed(GetText(c, e)));
    assert Embedded(c, embed, us + [e]) == Embedded(c, embed, us) + [embed(GetText(c, e))];
  }

  lemma {:induction false} IngestAt(c: Config, embed: string -> Vector, store: Store, events: seq<Event>, id: string)
    ensures Find(Ingested(c, embed, store, Upserts(c, events)), id) ==
            if LastUpsert(c, embed, events, id).Some? then LastUpsert(c, embed, events, id) else Find(store, id)
  {
    if events == [] {
    } else {
      var init, e := events[..|events| - 1], events[|events| - 1];
      assert events == init + [e];
      IngestAt(c, embed, store, init, id);
      UpsertsOneMore(c, init, e);
      if !IsDelete(e) && !Blank(GetText(c, e)) {
        IngestedOneMore(c, embed, store, Upserts(c, init), e);
        FindUpdated(Ingested(c, embed, store, Upserts(c, init)), VectorId(c, e),
                    Doc(embed(GetText(c, e)), GetMetadata(c, e)), id);
      }
    }
  }

  /** A batch leaves every id it deletes absent, every other id it writes at the last text written,
      and all other ids alone. */
  lemma BatchAt(c: Config, cb: Callbacks, embed: string -> Vector, store: Store, events: seq<Event>, id: string)
    requires WorksOn(c, cb, embed, events)
    ensures Find(ProcessBatch(c, cb, store, events), id) ==
            if Deleted(c, events, id) then None
            else if LastUpsert(c, embed, events, id).Some? then LastUpsert(c, embed, events, id)
            else Find(store, id)
  {
    IngestAt(c, embed, store, events, id);
    DeleteAllAt(c, Ingested(c, embed, store, Upserts(c, events)), events, id);
    BatchRegroups(c, cb, embed, store, events);
  }

  /** The same with whatever callbacks are set: without an embedding or without an ingest callback nothing is
      written, without a delete callback nothing is deleted, and if the embedding raises nothing happens. */
  lemma BatchByCallbacks(c: Config, cb: Callbacks, embed: string -> Vector, store: Store, events: seq<Event>,
                         id: string)
    requires cb.embed.Some? && Upserts(c, events) != [] ==>
               cb.embed.value(Texts(c, Upserts(c, events))) in
               {None, Some(Embedded(c, embed, Upserts(c, events)))}
    ensures Find(ProcessBatch(c, cb, store, events), id) ==
            if Fails(c, cb, events) then Find(store, id)
            else if cb.delete && Deleted(c, events, id) then None
            else if cb.ingest && cb.embed.Some? && LastUpsert(c, embed, events, id).Some? then
              LastUpsert(c, embed, events, id)
            else Find(store, id)
  {
    IngestAt(c, embed, store, events, id);
    DeleteAllAt(c, store, events, id);
    DeleteAllAt(c, Ingested(c, embed, store, Upserts(c, events)), events, id);
  }

  lemma BatchRegroups(c: Config, cb: Callbacks, embed: string -> Vector, store: Store, events: seq<Event>)
    requires WorksOn(c, cb, embed, events)
    ensures ProcessBatch(c, cb, store, events) ==
            DeleteAll(c, Ingested(c, embed, store, Upserts(c, events)), Deletes(events))
  {
  }

  lemma SameStore(s: Store, t: Store)
    requires forall id :: Find(s, id) == Find(t, id)
    ensures s == t
  {
    assert forall id :: id in s <==> Find(s, id).Some?;
    assert forall id :: id in t <==> Find(t, id).Some?;
    assert forall id :: id in s ==> Find(s, id) == Some(s[id]);
    assert forall id :: id in t ==> Find(t, id) == Some(t[id]);
  }

  /** The two ways of applying a batch agree on an id exactly if it is not recreated. */
  lemma AgreeAt(c: Config, cb: Callbacks, embed: string -> Vector, store: Store, events: seq<Event>, id: string)
    requires WorksOn(c, cb, embed, events)
    ensures Find(ProcessBatch(c, cb, store, events), id) == Find(InOrder(c, embed, store, events), id) <==>
            !Recreated(c, events, id)
  {
    BatchAt(c, cb, embed, store, events, id);
    InOrderAt(c, embed, store, events, id);
  }

  /** Regrouping a batch into upserts and then deletes is applying it in order exactly when no id is
      recreated in it; this does not depend on what the store holds. */
  lemma RegroupingExact(c: Config, cb: Callbacks, embed: string -> Vector, store: Store, events: seq<Event>)
    requires WorksOn(c, cb, embed, events)
    ensures ProcessBatch(c, cb, store, events) == InOrder(c, embed, store, events) <==>
            forall id :: !Recreated(c, events, id)
  {
    var batch, ordered := ProcessBatch(c, cb, store, events), InOrder(c, embed, store, events);
    if forall id :: !Recreated(c, events, id) {
      forall id
        ensures Find(batch, id) == Find(ordered, id)
      {
        AgreeAt(c, cb, embed, store, events, id);
      }
      SameStore(batch, ordered);
    } else {
      var id :| Recreated(c, events, id);
      AgreeAt(c, cb, embed, store, events, id);
    }
  }

  /** Whether an event of the batch affects the id at all. */
  predicate Touched(c: Config, embed: string -> Vector, events: seq<Event>, id: string) {
    Deleted(c, events, id) || LastUpsert(c, embed, events, id).Some?
  }

  /** Replaying a batch over any store that differs only in ids the batch touches, such as one left
      by an attempt that broke off midway, gives what the batch gives the first time. */
  lemma ReplayAbsorbs(c: Config, cb: Callbacks, embed: string -> Vector, store: Store, partial: Store,
                      events: seq<Event>)
    requires WorksOn(c, cb, embed, events)
    requires forall id :: !Touched(c, embed, events, id) ==> Find(partial, id) == Find(store, id)
    ensures ProcessBatch(c, cb, partial, events) == ProcessBatch(c, cb, store, events)
  {
    forall id
      ensures Find(ProcessBatch(c, cb, partial, events), id) == Find(ProcessBatch(c, cb, store, events), id)
    {
      BatchAt(c, cb, embed, partial, events, id);
      BatchAt(c, cb, embed, store, events, id);
      assert Touched(c, embed, events, id) || Find(partial, id) == Find(store, id);
    }
    SameStore(ProcessBatch(c, cb, partial, events), ProcessBatch(c, cb, store, events));
  }

  lemma ReplayIdempotent(c: Config, cb: Callbacks, embed: string -> Vector, store: Store, events: seq<Event>)
    requires WorksOn(c, cb, embed, events)
    ensures ProcessBatch(c, cb, ProcessBatch(c, cb, store, events), events) == ProcessBatch(c, cb, store, events)
  {
    var once := ProcessBatch(c, cb, store, events);
    forall id | !Touched(c, embed, events, id)
      ensures Find(once, id) == Find(store, id)
    {
      BatchAt(c, cb, embed, store, events, id);
    }
    ReplayAbsorbs(c, cb, embed, store, once, events);
  }

  // ---------------------------------------------------------------- runs

  /** batches records what has been handed to processing, in order. */
  datatype State = State(buffer: seq<Event>, store: Store, batches: seq<seq<Event>>)

  function Flush(c: Config, cb: Callbacks, s: State): State {
    if s.buffer == [] then s else
      var batch := Take(s.buffer, c.batchSize);
      State(Drop(s.buffer, c.batchSize), ProcessBatch(c, cb, s.store, batch), s.batches + [batch])
  }

  function Enqueue(c: Config, cb: Callbacks, s: State, e: Event): State {
    var s' := s.(buffer := s.buffer + [e]);
    if |s'.buffer| >= c.batchSize then Flush(c, cb, s') else s'
  }

  datatype Op = EnqueueOp(event: Event) | FlushOp

  function Run(c: Config, cb: Callbacks, store: Store, ops: seq<Op>): State {
    if ops == [] then State([], store, []) else
      var s := Run(c, cb, store, ops[..|ops| - 1]);
      match ops[|ops| - 1]
      case EnqueueOp(e) => Enqueue(c, cb, s, e)
      case FlushOp => Flush(c, cb, s)
  }

  function Enqueued(ops: seq<Op>): seq<Event> {
    if ops == [] then [] else
      Enqueued(ops[..|ops| - 1]) + match ops[|ops| - 1] case EnqueueOp(e) => [e] case FlushOp => []
  }

  lemma FlushConserves(c: Config, cb: Callbacks, s: State)
    ensures Flatten(Flush(c, cb, s).batches) + Flush(c, cb, s).buffer == Flatten(s.batches) + s.buffer
  {
    if s.buffer != [] {
      var batch, rest := Take(s.buffer, c.batchSize), Drop(s.buffer, c.batchSize);
      assert (s.batches + [batch])[..|s.batches|] == s.batches;
      assert batch + rest == s.buffer;
      AppendAssociates(Flatten(s.batches), batch, rest);
    }
  }

  lemma AppendAssociates<T>(a: seq<T>, b: seq<T>, c: seq<T>)
    ensures a + b + c == a + (b + c)
  {
  }

  /** Whatever the batch size, what was processed followed by the buffer is what was enqueued. */
  lemma {:induction false} RunConserves(c: Config, cb: Callbacks, store: Store, ops: seq<Op>)
    ensures Flatten(Run(c, cb, store, ops).batches) + Run(c, cb, store, ops).buffer == Enqueued(ops)
  {
    if ops == [] {
    } else {
      var init, s := ops[..|ops| - 1], Run(c, cb, store, ops[..|ops| - 1]);
      RunConserves(c, cb, store, init);
      match ops[|ops| - 1]
      case EnqueueOp(e) =>
        assert Flatten(s.batches) + s.buffer + [e] == Flatten(s.batches) + (s.buffer + [e]);
        FlushConserves(c, cb, s.(buffer := s.buffer + [e]));
      case FlushOp =>
        FlushConserves(c, cb, s);
    }
  }

  /** With a positive batch size the buffer stays below it, and batches do not exceed it. */
  lemma {:induction false} BufferBounded(c: Config, cb: Callbacks, store: Store, ops: seq<Op>)
    requires c.batchSize >= 1
    ensures |Run(c, cb, store, ops).buffer| < c.batchSize
    ensures forall b :: b in Run(c, cb, store, ops).batches ==> 1 <= |b| <= c.batchSize
  {
    if ops == [] {
    } else {
      BufferBounded(c, cb, store, ops[..|ops| - 1]);
    }
  }

  /** The one flush that stop makes empties the buffer after every run exactly when the batch size is
      positive; otherwise a single event already stays behind. */
  lemma StopDrainsExactly(c: Config, cb: Callbacks, store: Store, e: Event)
    ensures (forall ops: seq<Op> :: Flush(c, cb, Run(c, cb, store, ops)).buffer == []) <==> c.batchSize >= 1
  {
    if c.batchSize >= 1 {
      forall ops: seq<Op>
        ensures Flush(c, cb, Run(c, cb, store, ops)).buffer == []
      {
        BufferBounded(c, cb, store, ops);
      }
    } else {
      var ops := [EnqueueOp(e)];
      assert ops[..0] == [];
      assert Run(c, cb, store, []) == State([], store, []);
      var s := State([e], store, []);
      assert [] + [e] == [e];
      NothingTaken(e, c.batchSize);
      assert Run(c, cb, store, ops) == Flush(c, cb, s);
      assert Flush(c, cb, Run(c, cb, store, ops)).buffer == [e];
    }
  }

  lemma NothingTaken(e: Event, k: int)
    requires k <= 0
    ensures Take([e], k) == [] && Drop([e], k) == [e]
  {
  }

  /** The batches processed one after the other. */
  function Replayed(c: Config, cb: Callbacks, store: Store, batches: seq<seq<Event>>): Store {
    if batches == [] then store else
      ProcessBatch(c, cb, Replayed(c, cb, store, batches[..|batches| - 1]), batches[|batches| - 1])
  }

  lemma FlushReplays(c: Config, cb: Callbacks, store: Store, s: State)
    requires s.store == Replayed(c, cb, store, s.batches)
    ensures Flush(c, cb, s).store == Replayed(c, cb, store, Flush(c, cb, s).batches)
  {
    if s.buffer != [] {
      assert (s.batches + [Take(s.buffer, c.batchSize)])[..|s.batches|] == s.batches;
    }
  }

  lemma {:induction false} RunReplays(c: Config, cb: Callbacks, store: Store, ops: seq<Op>)
    ensures Run(c, cb, store, ops).store == Replayed(c, cb, store, Run(c, cb, store, ops).batches)
  {
    if ops == [] {
    } else {
      var s := Run(c, cb, store, ops[..|ops| - 1]);
      RunReplays(c, cb, store, ops[..|ops| - 1]);
      match ops[|ops| - 1]
      case EnqueueOp(e) => FlushReplays(c, cb, store, s.(buffer := s.buffer + [e]));
      case FlushOp => FlushReplays(c, cb, store, s);
    }
  }

  // ---------------------------------------------------------------- batches as the operations make them

  /** The batches cut so far, and the events since. */
  datatype Cuts = Cuts(batches: seq<seq<Event>>, rest: seq<Event>)

  function CutOff(cuts: Cuts): Cuts {
    if cuts.rest == [] then cuts else Cuts(cuts.batches + [cuts.rest], [])
  }

  /** A batch ends with its size-th event or with a flush. */
  function Cut(ops: seq<Op>, size: int): Cuts {
    if ops == [] then Cuts([], []) else
      var cuts := Cut(ops[..|ops| - 1], size);
      match ops[|ops| - 1]
      case EnqueueOp(e) =>
        var more := Cuts(cuts.batches, cuts.rest + [e]);
        if |more.rest| == size then CutOff(more) else more
      case FlushOp => CutOff(cuts)
  }

  /** All batches, when stop has flushed the last one. */
  function Batches(ops: seq<Op>, size: int): seq<seq<Event>> {
    CutOff(Cut(ops, size)).batches
  }

  lemma {:induction false} RunCuts(c: Config, cb: Callbacks, store: Store, ops: seq<Op>)
    requires c.batchSize >= 1
    ensures Cut(ops, c.batchSize) == Cuts(Run(c, cb, store, ops).batches, Run(c, cb, store, ops).buffer)
  {
    if ops == [] {
    } else {
      RunCuts(c, cb, store, ops[..|ops| - 1]);
      BufferBounded(c, cb, store, ops[..|ops| - 1]);
    }
  }

  lemma StopCuts(c: Config, cb: Callbacks, store: Store, ops: seq<Op>)
    requires c.batchSize >= 1
    ensures Flush(c, cb, Run(c, cb, store, ops)).batches == Batches(ops, c.batchSize)
  {
    RunCuts(c, cb, store, ops);
    BufferBounded(c, cb, store, ops);
  }

  // ---------------------------------------------------------------- what a run makes of an id

  /** What a batch leaves at an id: nothing happens if its embedding raises, deletes included. */
  function Leaves(c: Config, cb: Callbacks, embed: string -> Vector, before: Option<Doc>, events: seq<Event>,
                  id: string): Option<Doc> {
    if Fails(c, cb, events) then before
    else if Deleted(c, events, id) then None
    else if LastUpsert(c, embed, events, id).Some? then LastUpsert(c, embed, events, id)
    else before
  }

  /** What its events leave there one by one. */
  function Should(c: Config, embed: string -> Vector, before: Option<Doc>, events: seq<Event>,
                  id: string): Option<Doc> {
    if Deleted(c, events, id) && !Recreated(c, events, id) then None
    else if LastUpsert(c, embed, events, id).Some? then LastUpsert(c, embed, events, id)
    else before
  }

  function Left(c: Config, cb: Callbacks, embed: string -> Vector, start: Option<Doc>, batches: seq<seq<Event>>,
                id: string): Option<Doc> {
    if batches == [] then start else
      Leaves(c, cb, embed, Left(c, cb, embed, start, batches[..|batches| - 1], id), batches[|batches| - 1], id)
  }

  lemma BatchLeaves(c: Config, cb: Callbacks, embed: string -> Vector, store: Store, events: seq<Event>, id: string)
    requires MayFail(c, cb, embed)
    ensures Find(ProcessBatch(c, cb, store, events), id) == Leaves(c, cb, embed, Find(store, id), events, id)
  {
    if !Fails(c, cb, events) {
      assert WorksOn(c, cb, embed, events);
      BatchAt(c, cb, embed, store, events, id);
    }
  }

  lemma {:induction false} ReplayLeaves(c: Config, cb: Callbacks, embed: string -> Vector, store: Store,
                                        batches: seq<seq<Event>>, id: string)
    requires MayFail(c, cb, embed)
    ensures Find(Replayed(c, cb, store, batches), id) == Left(c, cb, embed, Find(store, id), batches, id)
  {
    if batches == [] {
    } else {
      var init := batches[..|batches| - 1];
      ReplayLeaves(c, cb, embed, store, init, id);
      BatchLeaves(c, cb, embed, Replayed(c, cb, store, init), batches[|batches| - 1], id);
    }
  }

  /** The last batch that touches the id recreates it, or was lost and would have changed the id. */
  predicate OutOfStep(c: Config, cb: Callbacks, embed: string -> Vector, start: Option<Doc>, batches: seq<seq<Event>>,
                      id: string) {
    batches != [] &&
    var init, last := batches[..|batches| - 1], batches[|batches| - 1];
    if !Touched(c, embed, last, id) then OutOfStep(c, cb, embed, start, init, id)
    else if Fails(c, cb, last) then
      Left(c, cb, embed, start, init, id) != Should(c, embed, None, last, id)
    else Recreated(c, last, id)
  }

  /** The last batch that touches the id recreates it. */
  predicate RecreatedLast(c: Config, embed: string -> Vector, batches: seq<seq<Event>>, id: string) {
    batches != [] &&
    var last := batches[|batches| - 1];
    if Touched(c, embed, last, id) then Recreated(c, last, id)
    else RecreatedLast(c, embed, batches[..|batches| - 1], id)
  }

  /** Where no embedding fails, only recreated ids get out of step. */
  lemma {:induction false} OutOfStepIfWorks(c: Config, cb: Callbacks, embed: string -> Vector, start: Option<Doc>,
                                            batches: seq<seq<Event>>, id: string)
    requires Works(cb, embed)
    ensures OutOfStep(c, cb, embed, start, batches, id) <==> RecreatedLast(c, embed, batches, id)
  {
    if batches == [] {
    } else {
      OutOfStepIfWorks(c, cb, embed, start, batches[..|batches| - 1], id);
      WorksOnAny(c, cb, embed, batches[|batches| - 1]);
    }
  }

  /** One more batch: whether an id is then as it should be. */
  lemma BatchDecides(c: Config, cb: Callbacks, embed: string -> Vector, a: Store, b: Store, events: seq<Event>,
                     id: string)
    requires MayFail(c, cb, embed)
    ensures Find(ProcessBatch(c, cb, a, events), id) == Find(InOrder(c, embed, b, events), id) <==>
            if !Touched(c, embed, events, id) then Find(a, id) == Find(b, id)
            else if Fails(c, cb, events) then Find(a, id) == Should(c, embed, None, events, id)
            else !Recreated(c, events, id)
  {
    BatchLeaves(c, cb, embed, a, events, id);
    InOrderAt(c, embed, b, events, id);
  }

  lemma {:induction false} ReplayAgreesAt(c: Config, cb: Callbacks, embed: string -> Vector, store: Store,
                                          batches: seq<seq<Event>>, id: string)
    requires MayFail(c, cb, embed)
    ensures Find(Replayed(c, cb, store, batches), id) == Find(InOrder(c, embed, store, Flatten(batches)), id) <==>
            !OutOfStep(c, cb, embed, Find(store, id), batches, id)
  {
    if batches == [] {
    } else {
      var init, last := batches[..|batches| - 1], batches[|batches| - 1];
      ReplayAgreesAt(c, cb, embed, store, init, id);
      ReplayLeaves(c, cb, embed, store, init, id);
      InOrderAppend(c, embed, store, Flatten(init), last);
      BatchDecides(c, cb, embed, Replayed(c, cb, store, init), InOrder(c, embed, store, Flatten(init)), last, id);
    }
  }

  /** What stop leaves processed is everything that was enqueued. */
  lemma StopProcessesAll(c: Config, cb: Callbacks, store: Store, ops: seq<Op>)
    requires c.batchSize >= 1
    ensures Flush(c, cb, Run(c, cb, store, ops)).buffer == []
    ensures Flatten(Flush(c, cb, Run(c, cb, store, ops)).batches) == Enqueued(ops)
    ensures Flush(c, cb, Run(c, cb, store, ops)).store ==
            Replayed(c, cb, store, Flush(c, cb, Run(c, cb, store, ops)).batches)
  {
    var s := Run(c, cb, store, ops);
    BufferBounded(c, cb, store, ops);
    RunConserves(c, cb, store, ops);
    RunReplays(c, cb, store, ops);
    FlushReplays(c, cb, store, s);
    FlushConserves(c, cb, s);
    assert Flatten(Flush(c, cb, s).batches) + [] == Flatten(Flush(c, cb, s).batches);
  }

  /** Once stop has flushed, an id stands as if all enqueued events had been applied one by one if and only
      if the last batch touching it neither recreated it nor was lost, with all its deletes, to an embedding
      that raised when it would have changed the id. */
  lemma StopInOrderAt(c: Config, cb: Callbacks, embed: string -> Vector, store: Store, ops: seq<Op>, id: string)
    requires MayFail(c, cb, embed) && c.batchSize >= 1
    ensures
      var done := Flush(c, cb, Run(c, cb, store, ops));
      Find(done.store, id) == Find(InOrder(c, embed, store, Enqueued(ops)), id) <==>
      !OutOfStep(c, cb, embed, Find(store, id), Batches(ops, c.batchSize), id)
  {
    StopProcessesAll(c, cb, store, ops);
    StopCuts(c, cb, store, ops);
    ReplayAgreesAt(c, cb, embed, store, Batches(ops, c.batchSize), id);
  }

  /** The whole store is that of applying all enqueued events one by one if and only if no id is out of
      step. */
  lemma StopInOrderExactly(c: Config, cb: Callbacks, embed: string -> Vector, store: Store, ops: seq<Op>)
    requires MayFail(c, cb, embed) && c.batchSize >= 1
    ensures
      var done := Flush(c, cb, Run(c, cb, store, ops));
      done.store == InOrder(c, embed, store, Enqueued(ops)) <==>
      forall id :: !OutOfStep(c, cb, embed, Find(store, id), Batches(ops, c.batchSize), id)
  {
    var batches := Batches(ops, c.batchSize);
    var stopped, ordered := Flush(c, cb, Run(c, cb, store, ops)).store, InOrder(c, embed, store, Enqueued(ops));
    if forall id :: !OutOfStep(c, cb, embed, Find(store, id), batches, id) {
      forall id
        ensures Find(stopped, id) == Find(ordered, id)
      {
        StopInOrderAt(c, cb, embed, store, ops, id);
      }
      SameStore(stopped, ordered);
    } else {
      var id :| OutOfStep(c, cb, embed, Find(store, id), batches, id);
      StopInOrderAt(c, cb, embed, store, ops, id);
    }
  }

  /** With embeddings that never raise only a recreated id can differ. */
  lemma StopInOrderIfWorks(c: Config, cb: Callbacks, embed: string -> Vector, store: Store, ops: seq<Op>, id: string)
    requires Works(cb, embed) && c.batchSize >= 1
    ensures
      var done := Flush(c, cb, Run(c, cb, store, ops));
      Find(done.store, id) == Find(InOrder(c, embed, store, Enqueued(ops)), id) <==>
      !RecreatedLast(c, embed, Batches(ops, c.batchSize), id)
  {
    forall events: seq<Event>
      ensures WorksOn(c, cb, embed, events)
    {
      WorksOnAny(c, cb, embed, events);
    }
    StopInOrderAt(c, cb, embed, store, ops, id);
    OutOfStepIfWorks(c, cb, embed, Find(store, id), Batches(ops, c.batchSize), id);
  }

  lemma {:induction false} InOrderAppend(c: Config, embed: string -> Vector, store: Store, a: seq<Event>, b: seq<Event>)
    ensures InOrder(c, embed, store, a + b) == InOrder(c, embed, InOrder(c, embed, store, a), b)
  {
    if b == [] {
      assert a + b == a;
    } else {
      assert (a + b)[..|a + b| - 1] == a + b[..|b| - 1];
      InOrderAppend(c, embed, store, a, b[..|b| - 1]);
    }
  }
}
