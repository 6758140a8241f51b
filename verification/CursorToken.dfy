/** The opaque pagination cursor (app/core/pagination.py): base64 of a JSON object with a hard length bound. */
module CursorToken {
  import opened Common
  import opened CursorCodec
  import opened JsonText
  import opened Numerals
  import opened Pagination

  const MAX_CURSOR_LENGTH := 512

  // ----- The payload -----

  function IdField(id: int): (s: string)
    ensures |s| == |IntText(id)| + 5 && Printable(s)
  {
    Field('i', IntText(id), "}")
  }

  function ValueField(value: string, id: int): (s: string)
    ensures |s| == |Escaped(value)| + 7 + |IdField(id)| && Printable(s)
  {
    Field('v', Quoted(value), Append(",", IdField(id)))
  }

  /** The object with fields "s", "v" and "i", without spaces. */
  function Payload(sort: string, value: string, id: int): (s: string)
    ensures |s| == 20 + |Escaped(sort)| + |Escaped(value)| + |IntText(id)| && Printable(s)
  {
    Append("{", Field('s', Quoted(sort), Append(",", ValueField(value, id))))
  }

  function Bytes(s: string): (b: seq<Byte>)
    requires Printable(s)
    ensures |b| == |s| && forall i :: 0 <= i < |s| ==> b[i] == s[i] as int
  {
    seq(|s|, i requires 0 <= i < |s| => s[i] as int)
  }

  function Dumps(sort: string, value: string, id: int): (b: seq<Byte>)
    ensures |b| == 20 + |Escaped(sort)| + |Escaped(value)| + |IntText(id)|
  {
    Bytes(Payload(sort, value, id))
  }

  // ----- Reading it back -----

  lemma IdFieldIsRead(id: int, fields: map<string, Json>)
    ensures ReadFields(IdField(id), fields) == Some(fields["i" := JInt(id)])
  {
    ReadIntValue(id, "}");
    ReadField('i', IntText(id), JInt(id), "}", fields);
  }

  lemma ValueFieldIsRead(value: string, id: int, fields: map<string, Json>)
    ensures ReadFields(ValueField(value, id), fields) == Some(fields["v" := JString(value)]["i" := JInt(id)])
  {
    ReadStringValue(value, Append(",", IdField(id)));
    ReadField('v', Quoted(value), JString(value), Append(",", IdField(id)), fields);
    IdFieldIsRead(id, fields["v" := JString(value)]);
    assert Append(",", IdField(id))[1..] == IdField(id);
  }

  lemma FieldsAreRead(sort: string, value: string, id: int)
    ensures ReadFields(Field('s', Quoted(sort), Append(",", ValueField(value, id))), map[]) ==
            Some(map["s" := JString(sort), "v" := JString(value), "i" := JInt(id)])
  {
    var none: map<string, Json> := map[];
    var rest := Append(",", ValueField(value, id));
    ReadStringValue(sort, rest);
    ReadField('s', Quoted(sort), JString(sort), rest, none);
    ValueFieldIsRead(value, id, none["s" := JString(sort)]);
    assert rest[1..] == ValueField(value, id);
  }

  /** The payload is the JSON object with the ordering under "s", the value under "v" and the id under "i". */
  lemma PayloadIsRead(sort: string, value: string, id: int)
    ensures ReadObject(Payload(sort, value, id)) ==
            Some(JObject(map["s" := JString(sort), "v" := JString(value), "i" := JInt(id)]))
  {
    var fields := Field('s', Quoted(sort), Append(",", ValueField(value, id)));
    FieldsAreRead(sort, value, id);
    assert Payload(sort, value, id) == "{" + fields && ("{" + fields)[1..] == fields;
  }

  /** The text, character by character; strings without special characters stand there as they are. */
  lemma PayloadIs(sort: string, value: string, id: int)
    ensures IdField(id) == "\"i\":" + (IntText(id) + "}")
    ensures ValueField(value, id) == "\"v\":" + (Quoted(value) + ("," + IdField(id)))
    ensures Payload(sort, value, id) == "{" + ("\"s\":" + (Quoted(sort) + ("," + ValueField(value, id))))
  {
    FieldIs('i', IntText(id), "}");
    FieldIs('v', Quoted(value), Append(",", IdField(id)));
    FieldIs('s', Quoted(sort), Append(",", ValueField(value, id)));
  }

  /** The characters of an ASCII text. */
  function TextOf(b: seq<Byte>): Option<string> {
    if forall i :: 0 <= i < |b| ==> b[i] < 0x80 then Some(seq(|b|, i requires 0 <= i < |b| => b[i] as char)) else None
  }

  function LoadsFlat(b: seq<Byte>): Option<Json> {
    match TextOf(b)
    case None => None
    case Some(text) => ReadObject(text)
  }

  lemma DumpsIsRead(sort: string, value: string, id: int)
    ensures LoadsFlat(Dumps(sort, value, id)) ==
            Some(JObject(map["s" := JString(sort), "v" := JString(value), "i" := JInt(id)]))
  {
    PayloadIsRead(sort, value, id);
    assert TextOf(Dumps(sort, value, id)).value == Payload(sort, value, id);
  }

  /** The writing loses nothing: different cursors have different payloads. */
  lemma DumpsIsInjective(s1: string, v1: string, i1: int, s2: string, v2: string, i2: int)
    requires Dumps(s1, v1, i1) == Dumps(s2, v2, i2)
    ensures s1 == s2 && v1 == v2 && i1 == i2
  {
    DumpsIsRead(s1, v1, i1);
    DumpsIsRead(s2, v2, i2);
    var a := map["s" := JString(s1), "v" := JString(v1), "i" := JInt(i1)];
    var b := map["s" := JString(s2), "v" := JString(v2), "i" := JInt(i2)];
    assert a["s"] == b["s"] && a["v"] == b["v"] && a["i"] == b["i"];
  }

  // ----- The cursor -----

  /** An ordering: its name, how its sort values are written as text and read back (texts as they are, timestamps in ISO
      format), and how JSON is read. */
  datatype Ordering<!V> =
    Ordering(sort: string, show: V -> string, read: string -> Option<V>, loads: seq<Byte> -> Option<Json>)

  /** A JSON reader: it agrees with the one above on flat objects, and may read other texts too. */
  ghost predicate ReadsJson(loads: seq<Byte> -> Option<Json>) {
    forall b :: LoadsFlat(b).Some? ==> loads(b) == LoadsFlat(b)
  }

  /** Sort values are read back as they were written. */
  ghost predicate Inverts<V(!new)>(o: Ordering<V>) {
    ReadsJson(o.loads) && forall v :: o.read(o.show(v)) == Some(v)
  }

  /** `encode_cursor` */
  function EncodeCursor<V>(o: Ordering<V>, cursor: Cursor<V>): string {
    StripPadding(Encode(Dumps(o.sort, o.show(cursor.value), cursor.id)))
  }

  /** What `decode_cursor` makes of the JSON it has read. */
  function FromJson<V>(o: Ordering<V>, payload: Json): Option<Cursor<V>> {
    if !payload.JObject? then None
    else
      var f := payload.fields;
      if "v" !in f || "i" !in f || "s" !in f then None
      else if f["s"] == JString(o.sort) && f["v"].JString? && f["i"].JInt? && f["i"].number > 0 then
        match o.read(f["v"].text)
        case None => None
        case Some(value) => Some(Cursor(value, f["i"].number))
      else None
  }

  /** `decode_cursor`; None is the 422 of InvalidCursorError. */
  function DecodeCursor<V>(o: Ordering<V>, token: string): Option<Cursor<V>> {
    if token == "" || |token| > MAX_CURSOR_LENGTH then None
    else
      match UrlsafeB64Decode(Repad(token))
      case None => None
      case Some(bytes) =>
        match o.loads(bytes)
        case None => None
        case Some(payload) => FromJson(o, payload)
  }

  /** A cursor that the server accepts again. */
  predicate Fits<V>(o: Ordering<V>, cursor: Cursor<V>) {
    |Dumps(o.sort, o.show(cursor.value), cursor.id)| <= 384 && cursor.id > 0
  }

  lemma TokenLength<V>(o: Ordering<V>, cursor: Cursor<V>)
    ensures EncodeCursor(o, cursor) != ""
    ensures |EncodeCursor(o, cursor)| <= MAX_CURSOR_LENGTH <==> |Dumps(o.sort, o.show(cursor.value), cursor.id)| <= 384
    ensures UrlsafeB64Decode(Repad(EncodeCursor(o, cursor))) == Some(Dumps(o.sort, o.show(cursor.value), cursor.id))
  {
    PaddingRoundTrip(Dumps(o.sort, o.show(cursor.value), cursor.id));
  }

  lemma PayloadIsValid<V(!new)>(o: Ordering<V>, cursor: Cursor<V>, asked: string)
    requires Inverts(o)
    ensures FromJson(o.(sort := asked),
                     JObject(map["s" := JString(o.sort), "v" := JString(o.show(cursor.value)), "i" := JInt(cursor.id)]))
         == if cursor.id > 0 && asked == o.sort then Some(cursor) else None
  {
    var f := map["s" := JString(o.sort), "v" := JString(o.show(cursor.value)), "i" := JInt(cursor.id)];
    assert f["s"] == JString(o.sort) && f["v"] == JString(o.show(cursor.value)) && f["i"] == JInt(cursor.id);
  }

  /** A cursor comes back exactly when its payload has at most 384 bytes, its id is positive and it is presented for the
      ordering it was issued for; otherwise it is rejected. */
  lemma CursorRoundTrip<V(!new)>(o: Ordering<V>, cursor: Cursor<V>, asked: string)
    requires Inverts(o)
    ensures |EncodeCursor(o, cursor)| <= MAX_CURSOR_LENGTH <==> |Dumps(o.sort, o.show(cursor.value), cursor.id)| <= 384
    ensures DecodeCursor(o.(sort := asked), EncodeCursor(o, cursor)) ==
            if Fits(o, cursor) && asked == o.sort then Some(cursor) else None
  {
    TokenLength(o, cursor);
    DumpsIsRead(o.sort, o.show(cursor.value), cursor.id);
    PayloadIsValid(o, cursor, asked);
  }

  /** A positive id fits into ten digits if it fits into an integer column. */
  lemma IdLength(id: int)
    requires 0 < id < 0x8000_0000
    ensures |IntText(id)| <= 10
  {
    assert Pow10(5) == 100_000;
    assert Pow10(10) == 10_000_000_000;
    DecimalLength(id, 10);
  }
}
