/** The message bodies services/pgvector_compat.py builds, and how a client reads them. */
module PgMessages {
  import opened Prelude
  import opened PgWire

  type Text = Bytes

  predicate NulFree(t: Text) {
    0 !in t
  }

  function CString(t: Text): Bytes {
    t + [0]
  }

  /** A text up to its NUL byte, and what follows. */
  function ReadText(bs: Bytes): Option<(Text, Bytes)> {
    if bs == [] then None
    else if bs[0] == 0 then Some(([], bs[1..]))
    else
      match ReadText(bs[1..])
      case None => None
      case Some(r) => Some(([bs[0]] + r.0, r.1))
  }

  lemma {:induction false} ReadTextExactly(bs: Bytes, t: Text, rest: Bytes)
    ensures ReadText(bs) == Some((t, rest)) <==> NulFree(t) && bs == CString(t) + rest
  {
    if bs == [] {
    } else if bs[0] == 0 {
      if t == [] {
        assert CString(t) + rest == [0] + rest;
      } else {
        assert (CString(t) + rest)[0] == t[0];
      }
    } else if t != [] && t[0] == bs[0] {
      ReadTextExactly(bs[1..], t[1..], rest);
      assert CString(t) + rest == [t[0]] + (CString(t[1..]) + rest);
      assert bs == [bs[0]] + bs[1..];
      assert t == [t[0]] + t[1..];
      ReadTextTail(bs, t, rest);
    } else {
      if t == [] {
        assert (CString(t) + rest)[0] == 0;
      } else {
        assert (CString(t) + rest)[0] == t[0];
      }
    }
  }

  lemma ReadTextTail(bs: Bytes, t: Text, rest: Bytes)
    requires bs != [] && bs[0] != 0 && t != [] && t[0] == bs[0]
    ensures ReadText(bs) == Some((t, rest)) <==> ReadText(bs[1..]) == Some((t[1..], rest))
  {
    assert t == [t[0]] + t[1..];
    if ReadText(bs[1..]).Some? {
      var r := ReadText(bs[1..]).value;
      assert ([bs[0]] + r.0)[1..] == r.0;
    }
  }

  // ---------------------------------------------------------------- data rows

  function Cell(v: Option<Text>): Bytes {
    match v
    case None => Int32(-1)
    case Some(t) => Int32(|t|) + t
  }

  function Cells(vs: seq<Option<Text>>): Bytes {
    if vs == [] then [] else Cell(vs[0]) + Cells(vs[1..])
  }

  function CellFits(v: Option<Text>): bool {
    v.Some? ==> FitsInt32(|v.value|)
  }

  ghost predicate CellsFit(vs: seq<Option<Text>>) {
    forall i :: 0 <= i < |vs| ==> CellFits(vs[i])
  }

  function RowBody(vs: seq<Option<Text>>): Bytes {
    Int16(|vs|) + Cells(vs)
  }

  const DATA_ROW: Byte := 68

  function Packed(m: Message): Option<Bytes> {
    if Framable(m) then Some(Framed(m)) else None
  }

  ghost predicate RowPacks(vs: seq<Option<Text>>) {
    FitsInt16(|vs|) && CellsFit(vs)
  }

  /** None stands for the error that packing a number too large raises. */
  ghost function DataRow(vs: seq<Option<Text>>): Option<Bytes> {
    if RowPacks(vs) then Packed(Message(DATA_ROW, RowBody(vs))) else None
  }

  /** One column value and what follows it; a length of minus one is NULL. */
  function ReadCell(bs: Bytes): Option<(Option<Text>, Bytes)> {
    if |bs| < 4 then None else
      var n := SignedInt32(bs);
      if n == -1 then Some((None, bs[4..]))
      else if n < 0 || |bs| - 4 < n then None
      else Some((Some(bs[4..4 + n]), bs[4 + n..]))
  }

  function DecodeCells(bs: Bytes, n: nat): Option<seq<Option<Text>>>
    decreases n
  {
    if n == 0 then if bs == [] then Some([]) else None
    else
      match ReadCell(bs)
      case None => None
      case Some(r) =>
        match DecodeCells(r.1, n - 1)
        case None => None
        case Some(vs) => Some([r.0] + vs)
  }

  function DecodeRow(body: Bytes): Option<seq<Option<Text>>> {
    if |body| < 2 then None else
      var n := SignedInt16(body);
      if n < 0 then None else DecodeCells(body[2..], n)
  }

  lemma ReadCellBack(v: Option<Text>, rest: Bytes)
    requires CellFits(v)
    ensures ReadCell(Cell(v) + rest) == Some((v, rest))
  {
    match v
    case None =>
      Int32RoundTrip(-1, rest);
    case Some(t) =>
      Int32RoundTrip(|t|, t + rest);
      assert Cell(v) + rest == Int32(|t|) + (t + rest);
      assert (t + rest)[..|t|] == t;
  }

  lemma ReadCellOnly(bs: Bytes)
    requires ReadCell(bs).Some?
    ensures CellFits(ReadCell(bs).value.0) && bs == Cell(ReadCell(bs).value.0) + ReadCell(bs).value.1
  {
    Int32Signed(bs);
    assert bs == bs[..4] + bs[4..];
    var n := SignedInt32(bs);
    if n >= 0 {
      assert bs[4..] == bs[4..4 + n] + bs[4 + n..];
    }
  }

  lemma {:induction false} DecodeCellsBack(vs: seq<Option<Text>>)
    requires CellsFit(vs)
    ensures DecodeCells(Cells(vs), |vs|) == Some(vs)
  {
    if vs == [] {
    } else {
      ReadCellBack(vs[0], Cells(vs[1..]));
      DecodeCellsBack(vs[1..]);
      assert vs == [vs[0]] + vs[1..];
    }
  }

  lemma {:induction false} DecodeCellsOnly(bs: Bytes, n: nat)
    requires DecodeCells(bs, n).Some?
    ensures
      var vs := DecodeCells(bs, n).value;
      |vs| == n && CellsFit(vs) && bs == Cells(vs)
    decreases n
  {
    if n == 0 {
    } else {
      var (v, rest) := ReadCell(bs).value;
      ReadCellOnly(bs);
      DecodeCellsOnly(rest, n - 1);
      var vs := DecodeCells(bs, n).value;
      assert vs == [v] + DecodeCells(rest, n - 1).value && vs[1..] == DecodeCells(rest, n - 1).value;
    }
  }

  /** A body decodes to exactly the row it was built from, and nothing else decodes to that row. */
  lemma DecodeRowExactly(body: Bytes, vs: seq<Option<Text>>)
    ensures DecodeRow(body) == Some(vs) <==> RowPacks(vs) && body == RowBody(vs)
  {
    if RowPacks(vs) && body == RowBody(vs) {
      Int16RoundTrip(|vs|, Cells(vs));
      DecodeCellsBack(vs);
      assert body[2..] == Cells(vs);
    }
    if DecodeRow(body) == Some(vs) {
      DecodeCellsOnly(body[2..], SignedInt16(body));
      Int16Signed(body);
      assert body == body[..2] + body[2..];
    }
  }

  /** What is sent for a row is read back as that row; NULL and the empty text stay apart. */
  lemma DataRowReadsBack(vs: seq<Option<Text>>)
    requires DataRow(vs).Some?
    ensures
      var s := Split(DataRow(vs).value);
      && s.messages == [Message(DATA_ROW, RowBody(vs))] && s.unread == []
      && DecodeRow(s.messages[0].body) == Some(vs)
  {
    DecodeRowExactly(RowBody(vs), vs);
    OneMessage(Message(DATA_ROW, RowBody(vs)));
  }

  lemma OneMessage(m: Message)
    requires Framable(m) && m.tag != TERMINATE
    ensures Split(Framed(m)) == Session([m], Cut, [])
  {
    StreamReadsBack([m]);
    assert Stream([m]) == Framed(m) + [] == Framed(m);
  }

  lemma {:induction false} CellsAppend(vs: seq<Option<Text>>, v: Option<Text>)
    ensures Cells(vs + [v]) == Cells(vs) + Cell(v)
  {
    if vs == [] {
      assert Cells([v]) == Cell(v) + [];
    } else {
      assert (vs + [v])[1..] == vs[1..] + [v];
      CellsAppend(vs[1..], v);
    }
  }

  method PackCell(v: Option<Text>) returns (r: Option<Bytes>)
    ensures r == if CellFits(v) then Some(Cell(v)) else None
  {
    match v
    case None =>
      r := Some(Int32(-1));
    case Some(encoded) =>
      r := if FitsInt32(|encoded|) then Some(Int32(|encoded|) + encoded) else None;
  }

  lemma CellsStep(head: Bytes, values: seq<Option<Text>>, i: nat)
    requires i < |values|
    ensures head + Cells(values[..i + 1]) == head + Cells(values[..i]) + Cell(values[i])
    ensures CellsFit(values[..i]) && CellFits(values[i]) ==> CellsFit(values[..i + 1])
  {
    assert values[..i + 1] == values[..i] + [values[i]];
    CellsAppend(values[..i], values[i]);
    assert head + (Cells(values[..i]) + Cell(values[i])) == head + Cells(values[..i]) + Cell(values[i]);
  }

  /** The loop over the values, from the count packed before it. */
  method PackCells(head: Bytes, values: seq<Option<Text>>) returns (r: Option<Bytes>)
    ensures r == if CellsFit(values) then Some(head + Cells(values)) else None
  {
    var body := head;
    for i := 0 to |values|
      invariant body == head + Cells(values[..i])
      invariant CellsFit(values[..i])
    {
      var cell := PackCell(values[i]);
      if cell.None? {
        return None;
      }
      CellsStep(head, values, i);
      body := body + cell.value;
    }
    assert values[..|values|] == values;
    r := Some(body);
  }

  method BuildDataRow(values: seq<Option<Text>>) returns (r: Option<Bytes>)
    ensures r == DataRow(values)
  {
    if !FitsInt16(|values|) {
      return None;
    }
    var body := PackCells(Int16(|values|), values);
    r := if body.Some? then Packed(Message(DATA_ROW, body.value)) else None;
  }

  // ---------------------------------------------------------------- row descriptions

  datatype Column = Column(name: Text, table: int, attribute: int, typeId: int, size: int, modifier: int, format: int)

  /** The server describes every column as text of unknown origin. */
  function TextColumn(name: Text): Column {
    Column(name, 0, 0, 25, -1, -1, 0)
  }

  function ColumnTail(): (bs: Bytes)
    ensures |bs| == 18
  {
    Int32(0) + Int16(0) + Int32(25) + Int16(-1) + Int32(-1) + Int16(0)
  }

  /** The fixed-width part of a column. */
  function ReadTail(name: Text, f: Bytes): Column
    requires |f| >= 18
  {
    Column(name, SignedInt32(f), SignedInt16(f[4..]), SignedInt32(f[6..]), SignedInt16(f[10..]),
           SignedInt32(f[12..]), SignedInt16(f[16..]))
  }

  lemma TailBytes()
    ensures ColumnTail() == [0, 0, 0, 0, 0, 0, 0, 0, 0, 25, 255, 255, 255, 255, 255, 255, 0, 0]
  {
  }

  lemma ReadTailBack(name: Text, rest: Bytes)
    ensures ReadTail(name, ColumnTail() + rest) == TextColumn(name)
  {
    TailBytes();
  }

  function ColumnBytes(name: Text): Bytes {
    CString(name) + ColumnTail()
  }

  function Columns(names: seq<Text>): Bytes {
    if names == [] then [] else ColumnBytes(names[0]) + Columns(names[1..])
  }

  const ROW_DESCRIPTION: Byte := 84

  function DescriptionBody(names: seq<Text>): Bytes {
    Int16(|names|) + Columns(names)
  }

  function RowDescription(names: seq<Text>): Option<Bytes> {
    if FitsInt16(|names|) then Packed(Message(ROW_DESCRIPTION, DescriptionBody(names))) else None
  }

  function ReadColumn(bs: Bytes): Option<(Column, Bytes)> {
    match ReadText(bs)
    case None => None
    case Some(r) =>
      var f := r.1;
      if |f| < 18 then None else
        Some((ReadTail(r.0, f), f[18..]))
  }

  function DecodeColumns(bs: Bytes, n: nat): Option<seq<Column>>
    decreases n
  {
    if n == 0 then if bs == [] then Some([]) else None
    else
      match ReadColumn(bs)
      case None => None
      case Some(r) =>
        match DecodeColumns(r.1, n - 1)
        case None => None
        case Some(cs) => Some([r.0] + cs)
  }

  function DecodeDescription(body: Bytes): Option<seq<Column>> {
    if |body| < 2 then None else
      var n := SignedInt16(body);
      if n < 0 then None else DecodeColumns(body[2..], n)
  }

  function TextColumns(names: seq<Text>): (cs: seq<Column>)
    ensures |cs| == |names| && forall i :: 0 <= i < |cs| ==> cs[i] == TextColumn(names[i])
  {
    seq(|names|, i requires 0 <= i < |names| => TextColumn(names[i]))
  }

  lemma ReadColumnBack(name: Text, rest: Bytes)
    requires NulFree(name)
    ensures ReadColumn(ColumnBytes(name) + rest) == Some((TextColumn(name), rest))
  {
    var f := ColumnTail() + rest;
    assert ColumnBytes(name) + rest == CString(name) + f;
    ReadTextExactly(ColumnBytes(name) + rest, name, f);
    ReadTailBack(name, rest);
    assert f[18..] == rest;
  }

  lemma TextColumnsFirst(names: seq<Text>)
    requires names != []
    ensures TextColumns(names) == [TextColumn(names[0])] + TextColumns(names[1..])
  {
  }

  lemma {:induction false} DecodeColumnsBack(names: seq<Text>)
    requires forall i :: 0 <= i < |names| ==> NulFree(names[i])
    ensures DecodeColumns(Columns(names), |names|) == Some(TextColumns(names))
  {
    if names == [] {
    } else {
      ReadColumnBack(names[0], Columns(names[1..]));
      DecodeColumnsBack(names[1..]);
      TextColumnsFirst(names);
    }
  }

  lemma {:induction false} DecodedNamesNulFree(bs: Bytes, n: nat, i: nat)
    requires DecodeColumns(bs, n).Some? && i < |DecodeColumns(bs, n).value|
    ensures NulFree(DecodeColumns(bs, n).value[i].name)
    decreases n
  {
    if n == 0 {
    } else {
      var (t, f) := ReadText(bs).value;
      ReadTextExactly(bs, t, f);
      if i > 0 {
        DecodedNamesNulFree(ReadColumn(bs).value.1, n - 1, i - 1);
      }
    }
  }

  /** The description decodes to the columns it was built from exactly if no name holds a NUL byte. */
  lemma DescriptionExactly(names: seq<Text>)
    requires FitsInt16(|names|)
    ensures DecodeDescription(DescriptionBody(names)) == Some(TextColumns(names)) <==>
            forall i :: 0 <= i < |names| ==> NulFree(names[i])
  {
    var body := DescriptionBody(names);
    Int16RoundTrip(|names|, Columns(names));
    assert body[2..] == Columns(names);
    if forall i :: 0 <= i < |names| ==> NulFree(names[i]) {
      DecodeColumnsBack(names);
    }
    if DecodeDescription(body) == Some(TextColumns(names)) {
      forall i | 0 <= i < |names|
        ensures NulFree(names[i])
      {
        DecodedNamesNulFree(Columns(names), |names|, i);
        assert TextColumns(names)[i].name == names[i];
      }
    }
  }

  lemma {:induction false} ColumnsAppend(names: seq<Text>, name: Text)
    ensures Columns(names + [name]) == Columns(names) + ColumnBytes(name)
  {
    if names == [] {
      assert Columns([name]) == ColumnBytes(name) + [];
    } else {
      assert (names + [name])[1..] == names[1..] + [name];
      ColumnsAppend(names[1..], name);
    }
  }

  method BuildRowDescription(columns: seq<Text>) returns (r: Option<Bytes>)
    ensures r == RowDescription(columns)
  {
    if !FitsInt16(|columns|) {
      return None;
    }
    var body := Int16(|columns|);
    for i := 0 to |columns|
      invariant body == Int16(|columns|) + Columns(columns[..i])
    {
      assert columns[..i + 1] == columns[..i] + [columns[i]];
      ColumnsAppend(columns[..i], columns[i]);
      ghost var before := body;
      body := body + CString(columns[i]);
      body := body + Int32(0);
      body := body + Int16(0);
      body := body + Int32(25);
      body := body + Int16(-1);
      body := body + Int32(-1);
      body := body + Int16(0);
      assert body == before + ColumnBytes(columns[i]);
    }
    assert columns[..|columns|] == columns;
    r := Packed(Message(ROW_DESCRIPTION, body));
  }

  // ---------------------------------------------------------------- the other replies

  const SEVERITY: Byte := 83
  const MESSAGE_TEXT: Byte := 77
  const ERROR: Text := [69, 82, 82, 79, 82]

  const ERROR_RESPONSE: Byte := 69

  function ErrorBody(text: Text): Bytes {
    [SEVERITY] + CString(ERROR) + [MESSAGE_TEXT] + CString(text) + [0]
  }

  function ErrorResponse(text: Text): Option<Bytes> {
    Packed(Message(ERROR_RESPONSE, ErrorBody(text)))
  }

  datatype Field = Field(code: Byte, text: Text)

  /** Fields up to the zero code that ends the body. */
  function DecodeFields(bs: Bytes): Option<seq<Field>>
    decreases |bs|
  {
    if bs == [] then None
    else if bs[0] == 0 then if |bs| == 1 then Some([]) else None
    else
      match ReadText(bs[1..])
      case None => None
      case Some(r) =>
        ReadTextExactly(bs[1..], r.0, r.1);
        match DecodeFields(r.1)
        case None => None
        case Some(fs) => Some([Field(bs[0], r.0)] + fs)
  }

  lemma DecodeField(code: Byte, text: Text, rest: Bytes)
    requires code != 0 && NulFree(text)
    ensures DecodeFields([code] + CString(text) + rest) ==
            match DecodeFields(rest) { case None => None case Some(fs) => Some([Field(code, text)] + fs) }
  {
    var bs := [code] + CString(text) + rest;
    assert bs[1..] == CString(text) + rest;
    ReadTextExactly(bs[1..], text, rest);
  }

  lemma {:induction false} FieldsNulFree(bs: Bytes, i: nat)
    requires DecodeFields(bs).Some? && i < |DecodeFields(bs).value|
    ensures NulFree(DecodeFields(bs).value[i].text)
    decreases |bs|
  {
    if bs[0] != 0 {
      var (t, rest) := ReadText(bs[1..]).value;
      ReadTextExactly(bs[1..], t, rest);
      if i > 0 {
        FieldsNulFree(rest, i - 1);
      }
    }
  }

  function ErrorFields(text: Text): seq<Field> {
    [Field(SEVERITY, ERROR), Field(MESSAGE_TEXT, text)]
  }

  /** An error response carries its severity and text exactly if the text holds no NUL byte. */
  lemma ErrorExactly(text: Text)
    ensures DecodeFields(ErrorBody(text)) == Some(ErrorFields(text)) <==> NulFree(text)
  {
    var last := [MESSAGE_TEXT] + CString(text) + [0];
    assert ErrorBody(text) == [SEVERITY] + CString(ERROR) + last;
    if NulFree(text) {
      DecodeField(MESSAGE_TEXT, text, [0]);
      assert DecodeFields([0]) == Some([]);
      assert [Field(MESSAGE_TEXT, text)] + [] == [Field(MESSAGE_TEXT, text)];
      DecodeField(SEVERITY, ERROR, last);
      assert [Field(SEVERITY, ERROR)] + [Field(MESSAGE_TEXT, text)] == ErrorFields(text);
    }
    if DecodeFields(ErrorBody(text)) == Some(ErrorFields(text)) {
      FieldsNulFree(ErrorBody(text), 1);
      assert DecodeFields(ErrorBody(text)).value[1] == Field(MESSAGE_TEXT, text);
    }
  }

  const COMMAND_COMPLETE: Byte := 67

  function CommandComplete(tag: Text): Option<Bytes> {
    Packed(Message(COMMAND_COMPLETE, CString(tag)))
  }

  /** A completion carries its tag exactly if the tag holds no NUL byte. */
  lemma CompleteExactly(tag: Text)
    requires CommandComplete(tag).Some?
    ensures Split(CommandComplete(tag).value) == Session([Message(COMMAND_COMPLETE, CString(tag))], Cut, [])
    ensures ReadText(CString(tag)) == Some((tag, [])) <==> NulFree(tag)
  {
    OneMessage(Message(COMMAND_COMPLETE, CString(tag)));
    ReadTextExactly(CString(tag), tag, []);
    assert CString(tag) + [] == CString(tag);
  }

  const PARAMETER_STATUS: Byte := 83

  function StatusBody(name: Text, value: Text): Bytes {
    CString(name) + CString(value)
  }

  function ParameterStatus(name: Text, value: Text): Option<Bytes> {
    Packed(Message(PARAMETER_STATUS, StatusBody(name, value)))
  }

  function DecodeStatus(body: Bytes): Option<(Text, Text)> {
    match ReadText(body)
    case None => None
    case Some(r) =>
      match ReadText(r.1)
      case None => None
      case Some(q) => if q.1 == [] then Some((r.0, q.0)) else None
  }

  /** A parameter status carries its name and value exactly if neither holds a NUL byte. */
  lemma StatusExactly(name: Text, value: Text)
    ensures DecodeStatus(StatusBody(name, value)) == Some((name, value)) <==> NulFree(name) && NulFree(value)
  {
    ReadTextExactly(StatusBody(name, value), name, CString(value));
    ReadTextExactly(CString(value), value, []);
    assert CString(value) + [] == CString(value);
    if DecodeStatus(StatusBody(name, value)) == Some((name, value)) {
      var (t, rest) := ReadText(StatusBody(name, value)).value;
      ReadTextExactly(StatusBody(name, value), t, rest);
      ReadTextExactly(rest, value, []);
    }
  }

  const AUTHENTICATION: Byte := 82
  const READY: Byte := 90
  const IDLE: Byte := 73

  function AuthenticationOk(): Bytes {
    Framed(Message(AUTHENTICATION, Int32(0)))
  }

  function ReadyForQuery(): Bytes {
    [READY] + Int32(5) + [IDLE]
  }

  // ---------------------------------------------------------------- what is on the wire

  /** A text in ASCII. */
  function Ascii(text: string): (bs: Bytes)
    requires forall i :: 0 <= i < |text| ==> text[i] as int < 128
    ensures |bs| == |text| && forall i :: 0 <= i < |bs| ==> bs[i] == text[i] as int
  {
    seq(|text|, i requires 0 <= i < |text| => text[i] as int)
  }

  /** A letter, the length of what follows counting its own four bytes, and the body. */
  ghost predicate OnWire(bytes: Bytes, letter: char, body: Bytes) {
    bytes == [letter as int % 256] + Int32(|body| + 4) + body
  }

  lemma PackedOnWire(m: Message, letter: char, body: Bytes)
    requires letter as int < 256 && m == Message(letter as int, body)
    ensures Packed(m).Some? <==> |body| + 4 < 0x8000_0000
    ensures Packed(m).Some? ==> OnWire(Packed(m).value, letter, body)
  {
  }

  /** An error carries its severity and its text as two fields, and a zero byte ends the fields. */
  lemma ErrorOnWire(text: Text)
    ensures ErrorResponse(text).Some? <==> |text| + 14 < 0x8000_0000
    ensures ErrorResponse(text).Some? ==>
              OnWire(ErrorResponse(text).value, 'E', Ascii("SERROR") + [0] + Ascii("M") + text + [0] + [0])
  {
    ErrorBodyIs(text);
    PackedOnWire(Message(ERROR_RESPONSE, ErrorBody(text)), 'E', ErrorBody(text));
  }

  lemma ErrorBodyIs(text: Text)
    ensures ErrorBody(text) == Ascii("SERROR") + [0] + Ascii("M") + text + [0] + [0]
  {
    assert [SEVERITY] + CString(ERROR) == Ascii("SERROR") + [0];
    assert [MESSAGE_TEXT] == Ascii("M");
    AppendAssociates(Ascii("SERROR") + [0] + Ascii("M"), text, [0]);
  }

  lemma AppendAssociates(a: Bytes, b: Bytes, c: Bytes)
    ensures a + b + c == a + (b + c)
  {
  }

  lemma CompletionOnWire(tag: Text)
    ensures CommandComplete(tag).Some? <==> |tag| + 5 < 0x8000_0000
    ensures CommandComplete(tag).Some? ==> OnWire(CommandComplete(tag).value, 'C', tag + [0])
  {
    PackedOnWire(Message(COMMAND_COMPLETE, CString(tag)), 'C', tag + [0]);
  }

  lemma StatusOnWire(name: Text, value: Text)
    ensures ParameterStatus(name, value).Some? <==> |name| + |value| + 6 < 0x8000_0000
    ensures ParameterStatus(name, value).Some? ==>
              OnWire(ParameterStatus(name, value).value, 'S', name + [0] + (value + [0]))
  {
    PackedOnWire(Message(PARAMETER_STATUS, StatusBody(name, value)), 'S', name + [0] + (value + [0]));
  }

  /** A row is sent exactly if its values can be counted and measured, and likewise a description. */
  lemma RowOnWire(values: seq<Option<Text>>)
    ensures DataRow(values).Some? <==>
            && |values| < 0x8000 && |Cells(values)| + 6 < 0x8000_0000
            && forall i :: 0 <= i < |values| && values[i].Some? ==> |values[i].value| < 0x8000_0000
    ensures DataRow(values).Some? ==> OnWire(DataRow(values).value, 'D', Int16(|values|) + Cells(values))
  {
    PackedOnWire(Message(DATA_ROW, RowBody(values)), 'D', RowBody(values));
  }

  lemma DescriptionOnWire(names: seq<Text>)
    ensures RowDescription(names).Some? <==> |names| < 0x8000 && |Columns(names)| + 6 < 0x8000_0000
    ensures RowDescription(names).Some? ==> OnWire(RowDescription(names).value, 'T', Int16(|names|) + Columns(names))
  {
    PackedOnWire(Message(ROW_DESCRIPTION, DescriptionBody(names)), 'T', DescriptionBody(names));
  }

  /** The two messages without variable parts. */
  lemma FixedOnWire()
    ensures AuthenticationOk() == Ascii("R") + [0, 0, 0, 8, 0, 0, 0, 0]
    ensures ReadyForQuery() == Ascii("Z") + [0, 0, 0, 5] + Ascii("I")
  {
  }
}
