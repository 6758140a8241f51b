/** JSON text (RFC 8259): strings as `json.dumps` writes them, ASCII only, and a reader of flat objects. */
module JsonText {
  import opened Common
  import opened Numerals

  // ----- Writing strings -----

  predicate Printable(s: string) {
    forall i :: 0 <= i < |s| ==> ' ' <= s[i] <= '~'
  }

  function HexDigit(n: nat): (c: char)
    requires n < 16
    ensures ' ' <= c <= '~' && c != '"' && c != '\\' && IsHex(c)
  {
    if n < 10 then '0' + n as char else 'a' + (n - 10) as char
  }

  predicate IsHex(c: char) {
    '0' <= c <= '9' || 'a' <= c <= 'f' || 'A' <= c <= 'F'
  }

  function HexValue(c: char): nat
    requires IsHex(c)
  {
    if '0' <= c <= '9' then c as int - '0' as int
    else if 'a' <= c <= 'f' then c as int - 'a' as int + 10
    else c as int - 'A' as int + 10
  }

  /** A backslash, "u" and four hexadecimal digits. */
  function Unit(n: nat): (s: string)
    requires n < 0x10000
    ensures |s| == 6 && Printable(s)
  {
    ['\\', 'u', HexDigit(n / 0x1000), HexDigit(n / 0x100 % 0x10), HexDigit(n / 0x10 % 0x10), HexDigit(n % 0x10)]
  }

  /** How `json.dumps` writes a character inside a string: ASCII only, with surrogate pairs beyond 16 bits. */
  function Escape(c: char): (s: string)
    ensures s != "" && Printable(s)
    ensures |s| == 1 <==> ' ' <= c <= '~' && c != '"' && c != '\\'
    ensures '~' < c && c as int < 0x10000 ==> |s| == 6
    ensures |s| <= 12
  {
    if c == '"' then "\\\""
    else if c == '\\' then "\\\\"
    else if c == '\n' then "\\n"
    else if c == '\r' then "\\r"
    else if c == '\t' then "\\t"
    else if c as int == 0x08 then "\\b"
    else if c as int == 0x0c then "\\f"
    else if ' ' <= c <= '~' then [c]
    else if c as int < 0x10000 then Unit(c as int)
    else
      var n := c as int - 0x10000;
      Unit(0xd800 + n / 0x400) + Unit(0xdc00 + n % 0x400)
  }

  function Escaped(text: string): (s: string)
    ensures |s| >= |text| && Printable(s)
  {
    if text == "" then "" else Escape(text[0]) + Escaped(text[1..])
  }

  function Append(a: string, b: string): (s: string)
    requires Printable(a) && Printable(b)
    ensures s == a + b && Printable(s)
  {
    a + b
  }

  /** A string literal. */
  function Quoted(text: string): (s: string)
    ensures |s| == |Escaped(text)| + 2 && Printable(s)
  {
    Append("\"", Append(Escaped(text), "\""))
  }

  // ----- Reading strings -----

  datatype Read = Read(text: string, rest: string)

  function Prepend(c: char, r: Option<Read>): Option<Read> {
    match r
    case None => None
    case Some(x) => Some(Read([c] + x.text, x.rest))
  }

  predicate IsUnit(s: string) {
    |s| >= 6 && s[0] == '\\' && s[1] == 'u' && IsHex(s[2]) && IsHex(s[3]) && IsHex(s[4]) && IsHex(s[5])
  }

  function UnitValue(s: string): nat
    requires IsUnit(s)
  {
    HexValue(s[2]) * 0x1000 + HexValue(s[3]) * 0x100 + HexValue(s[4]) * 0x10 + HexValue(s[5])
  }

  /** The text of a string literal up to its closing quote. (Lone surrogates and the escaped slash are not read.) */
  function ReadText(s: string): (r: Option<Read>)
    ensures r.Some? ==> |r.value.rest| < |s|
    decreases |s|
  {
    if s == "" || s[0] < ' ' then None
    else if s[0] == '"' then Some(Read("", s[1..]))
    else if s[0] != '\\' then Prepend(s[0], ReadText(s[1..]))
    else if IsUnit(s) then
      var n := UnitValue(s);
      if n < 0xd800 || 0xe000 <= n < 0x10000 then Prepend(n as char, ReadText(s[6..]))
      else if n < 0xdc00 && IsUnit(s[6..]) && 0xdc00 <= UnitValue(s[6..]) < 0xe000 then
        var m: int := 0x10000 + (n - 0xd800) * 0x400 + (UnitValue(s[6..]) - 0xdc00);
        Prepend(m as char, ReadText(s[6..][6..]))
      else None
    else if |s| == 1 then None
    else
      match s[1]
      case '"' => Prepend('"', ReadText(s[2..]))
      case '\\' => Prepend('\\', ReadText(s[2..]))
      case 'n' => Prepend('\n', ReadText(s[2..]))
      case 'r' => Prepend('\r', ReadText(s[2..]))
      case 't' => Prepend('\t', ReadText(s[2..]))
      case 'b' => Prepend(0x08 as char, ReadText(s[2..]))
      case 'f' => Prepend(0x0c as char, ReadText(s[2..]))
      case _ => None
  }

  lemma HexRoundTrip(n: nat)
    requires n < 16
    ensures HexValue(HexDigit(n)) == n
  {
  }

  lemma HexDigits(n: nat)
    requires n < 0x10000
    ensures n / 0x1000 * 0x1000 + n / 0x100 % 0x10 * 0x100 + n / 0x10 % 0x10 * 0x10 + n % 0x10 == n
  {
    assert n / 0x100 == n / 0x1000 * 0x10 + n / 0x100 % 0x10;
    assert n / 0x10 == n / 0x100 * 0x10 + n / 0x10 % 0x10;
  }

  lemma UnitHasValue(n: nat)
    requires n < 0x10000
    ensures UnitValue(Unit(n)) == n
  {
    HexRoundTrip(n / 0x1000);
    HexRoundTrip(n / 0x100 % 0x10);
    HexRoundTrip(n / 0x10 % 0x10);
    HexRoundTrip(n % 0x10);
    HexDigits(n);
  }

  lemma UnitRoundTrip(n: nat, rest: string)
    requires n < 0x10000
    ensures IsUnit(Unit(n) + rest) && UnitValue(Unit(n) + rest) == n && (Unit(n) + rest)[6..] == rest
  {
    UnitHasValue(n);
  }

  predicate IsPair(high: nat, low: nat, c: char) {
    0xd800 <= high < 0xdc00 && 0xdc00 <= low < 0xe000 && c as int == 0x10000 + (high - 0xd800) * 0x400 + (low - 0xdc00)
  }

  lemma ReadPairOf(s: string, tail: string, high: nat, low: nat, c: char)
    requires IsPair(high, low, c)
    requires IsUnit(s) && UnitValue(s) == high && s[6..] == tail
    requires IsUnit(tail) && UnitValue(tail) == low
    ensures ReadText(s) == Prepend(c, ReadText(tail[6..]))
  {
  }

  lemma ReadUnits(high: nat, low: nat, c: char, rest: string)
    requires IsPair(high, low, c)
    ensures ReadText(Unit(high) + (Unit(low) + rest)) == Prepend(c, ReadText(rest))
  {
    var tail := Unit(low) + rest;
    UnitRoundTrip(high, tail);
    UnitRoundTrip(low, rest);
    ReadPairOf(Unit(high) + tail, tail, high, low, c);
  }

  lemma ReadPair(c: char, rest: string)
    requires c as int >= 0x10000
    ensures ReadText(Escape(c) + rest) == Prepend(c, ReadText(rest))
  {
    var n := c as int - 0x10000;
    var high, low := 0xd800 + n / 0x400, 0xdc00 + n % 0x400;
    assert Escape(c) == Unit(high) + Unit(low);
    ReadUnits(high, low, c, rest);
    ConcatAssoc(Unit(high), Unit(low), rest);
  }

  lemma ReadUnit(c: char, rest: string)
    requires c as int < 0x10000 && |Escape(c)| > 2
    ensures ReadText(Escape(c) + rest) == Prepend(c, ReadText(rest))
  {
    assert Escape(c) == Unit(c as int);
    UnitRoundTrip(c as int, rest);
  }

  lemma ReadPlain(c: char, rest: string)
    requires |Escape(c)| == 1
    ensures ReadText(Escape(c) + rest) == Prepend(c, ReadText(rest))
  {
    assert ([c] + rest)[1..] == rest;
  }

  lemma ReadShort(c: char, rest: string)
    requires |Escape(c)| == 2
    ensures ReadText(Escape(c) + rest) == Prepend(c, ReadText(rest))
  {
    var s := Escape(c) + rest;
    assert s[0] == '\\' && s[1] == Escape(c)[1] && s[2..] == rest;
  }

  lemma ReadEscape(c: char, rest: string)
    ensures ReadText(Escape(c) + rest) == Prepend(c, ReadText(rest))
  {
    if |Escape(c)| == 1 {
      ReadPlain(c, rest);
    } else if |Escape(c)| == 2 {
      ReadShort(c, rest);
    } else if c as int < 0x10000 {
      ReadUnit(c, rest);
    } else {
      ReadPair(c, rest);
    }
  }

  lemma {:induction false} ReadEscaped(text: string, rest: string)
    ensures ReadText(Escaped(text) + ("\"" + rest)) == Some(Read(text, rest))
  {
    if text == "" {
      assert Escaped(text) + ("\"" + rest) == "\"" + rest && ("\"" + rest)[1..] == rest;
    } else {
      ReadEscaped(text[1..], rest);
      ReadEscape(text[0], Escaped(text[1..]) + ("\"" + rest));
      ConcatAssoc(Escape(text[0]), Escaped(text[1..]), "\"" + rest);
      assert [text[0]] + text[1..] == text;
    }
  }

  lemma ReadQuoted(text: string, rest: string)
    ensures Quoted(text) + rest != "" && ReadText((Quoted(text) + rest)[1..]) == Some(Read(text, rest))
  {
    var tail := Escaped(text) + ("\"" + rest);
    ConcatAssoc("\"", Escaped(text) + "\"", rest);
    ConcatAssoc(Escaped(text), "\"", rest);
    assert Quoted(text) + rest == "\"" + tail;
    assert ("\"" + tail)[1..] == tail;
    ReadEscaped(text, rest);
  }

  // ----- Flat objects -----

  datatype Json =
    | JObject(fields: map<string, Json>)
    | JArray(items: seq<Json>)
    | JString(text: string)
    | JInt(number: int)
    | JReal(float: real)
    | JBool(flag: bool)
    | JNull

  datatype ReadJson = ReadJson(value: Json, rest: string)

  function LeadingDigits(s: string): (n: nat)
    ensures n <= |s| && AllDigits(s[..n])
  {
    if s != "" && Digit(s[0]) then 1 + LeadingDigits(s[1..]) else 0
  }

  /** An integer: an optional minus sign and digits without a leading zero. */
  function ReadInt(s: string): (r: Option<ReadJson>)
    ensures r.Some? ==> |r.value.rest| < |s|
  {
    var digits := Unsigned(s);
    var n := LeadingDigits(digits);
    if n == 0 || (n > 1 && digits[0] == '0') then None
    else
      var value: int := Value(digits[..n]);
      Some(ReadJson(JInt(if s[0] == '-' then -value else value), digits[n..]))
  }

  function ReadValue(s: string): (r: Option<ReadJson>)
    ensures r.Some? ==> |r.value.rest| < |s|
  {
    if s == "" || s[0] != '"' then ReadInt(s)
    else
      match ReadText(s[1..])
      case None => None
      case Some(r) => Some(ReadJson(JString(r.text), r.rest))
  }

  /** The fields that follow, up to the closing brace at the end; of two with one name the later counts. */
  function ReadFields(s: string, fields: map<string, Json>): Option<map<string, Json>>
    decreases |s|
  {
    if s == "" || s[0] != '"' then None
    else
      match ReadText(s[1..])
      case None => None
      case Some(name) =>
        if name.rest == "" || name.rest[0] != ':' then None
        else
          match ReadValue(name.rest[1..])
          case None => None
          case Some(read) =>
            if read.rest == "}" then Some(fields[name.text := read.value])
            else if read.rest != "" && read.rest[0] == ',' then
              ReadFields(read.rest[1..], fields[name.text := read.value])
            else None
  }

  /** An object of strings and integers without spaces, its fields in any order. */
  function ReadObject(s: string): Option<Json> {
    if s == "{}" then Some(JObject(map[]))
    else if s == "" || s[0] != '{' then None
    else
      match ReadFields(s[1..], map[])
      case None => None
      case Some(fields) => Some(JObject(fields))
  }

  lemma {:induction false} DigitsLead(digits: string, rest: string)
    requires AllDigits(digits) && (rest == "" || !Digit(rest[0]))
    ensures LeadingDigits(digits + rest) == |digits|
  {
    if digits == "" {
      assert digits + rest == rest;
    } else {
      assert (digits + rest)[1..] == digits[1..] + rest;
      DigitsLead(digits[1..], rest);
    }
  }

  lemma {:induction false} NoLeadingZero(n: nat)
    ensures Decimal(n)[0] == '0' <==> n == 0
  {
    if n >= 10 {
      NoLeadingZero(n / 10);
      assert Decimal(n)[0] == Decimal(n / 10)[0];
    }
  }

  ghost predicate IsInteger(digits: string) {
    AllDigits(digits) && digits != "" && (|digits| == 1 || digits[0] != '0')
  }

  lemma SplitDigits(digits: string, rest: string)
    requires IsInteger(digits) && (rest == "" || !Digit(rest[0]))
    ensures var n := LeadingDigits(digits + rest);
            n == |digits| && (digits + rest)[..n] == digits && (digits + rest)[n..] == rest
  {
    DigitsLead(digits, rest);
  }

  lemma ReadNatural(digits: string, rest: string)
    requires IsInteger(digits) && (rest == "" || !Digit(rest[0]))
    ensures ReadInt(digits + rest) == Some(ReadJson(JInt(Value(digits)), rest))
  {
    SplitDigits(digits, rest);
    assert Digit((digits + rest)[0]) && (digits + rest)[0] == digits[0];
  }

  lemma ReadNegative(digits: string, rest: string, value: int)
    requires IsInteger(digits) && (rest == "" || !Digit(rest[0])) && value + Value(digits) == 0
    ensures ReadInt("-" + (digits + rest)) == Some(ReadJson(JInt(value), rest))
  {
    SplitDigits(digits, rest);
    assert ("-" + (digits + rest))[1..] == digits + rest && (digits + rest)[0] == digits[0];
  }

  /** Written integers are read back. */
  lemma ReadIntText(n: int, rest: string)
    requires rest == "" || !Digit(rest[0])
    ensures ReadInt(IntText(n) + rest) == Some(ReadJson(JInt(n), rest))
  {
    var m: nat := if n < 0 then -n else n;
    NoLeadingZero(m);
    DecimalValue(m);
    if n < 0 {
      ReadNegative(Decimal(m), rest, n);
      ConcatAssoc("-", Decimal(m), rest);
    } else {
      ReadNatural(Decimal(m), rest);
    }
  }

  lemma ReadStringValue(text: string, rest: string)
    ensures ReadValue(Quoted(text) + rest) == Some(ReadJson(JString(text), rest))
  {
    ReadQuoted(text, rest);
    assert (Quoted(text) + rest)[0] == '"';
  }

  lemma ReadIntValue(n: int, rest: string)
    requires rest == "" || !Digit(rest[0])
    ensures ReadValue(IntText(n) + rest) == Some(ReadJson(JInt(n), rest))
  {
    ReadIntText(n, rest);
    assert (IntText(n) + rest)[0] == IntText(n)[0];
  }

  /** A field with a one-letter name, and what follows it. */
  function Field(name: char, text: string, rest: string): (s: string)
    requires Plain(name) && Printable(text) && Printable(rest)
    ensures |s| == 4 + |text| + |rest| && Printable(s)
  {
    PlainLength([name]);
    Append(Quoted([name]), Append(":", Append(text, rest)))
  }

  lemma FieldIs(name: char, text: string, rest: string)
    requires Plain(name) && Printable(text) && Printable(rest)
    ensures Field(name, text, rest) == ['"', name, '"', ':'] + (text + rest)
  {
    PlainText([name]);
    ConcatAssoc(['"', name, '"'], ":", text + rest);
  }

  /** It is read, and then comes the end or a comma and the next field. */
  lemma ReadField(name: char, text: string, value: Json, rest: string, fields: map<string, Json>)
    requires Plain(name) && Printable(text) && Printable(rest)
    requires ReadValue(text + rest) == Some(ReadJson(value, rest)) && rest != "" && (rest == "}" || rest[0] == ',')
    ensures ReadFields(Field(name, text, rest), fields)
         == if rest == "}" then Some(fields[[name] := value]) else ReadFields(rest[1..], fields[[name] := value])
  {
    var tail := ":" + (text + rest);
    ReadQuoted([name], tail);
    assert Field(name, text, rest)[0] == '"' && tail[1..] == text + rest;
  }

  /** An object opens with a brace, a name with a quote; a colon follows the name, and a comma or the closing brace the
      value. */
  lemma ReaderIsStrict(name: string, text: string, value: Json, rest: string, fields: map<string, Json>)
    ensures ReadObject(text).Some? ==> text != "" && text[0] == '{'
    ensures ReadFields(text, fields).Some? ==> text != "" && text[0] == '"'
    ensures ReadFields(Quoted(name) + rest, fields).Some? ==> rest != "" && rest[0] == ':'
    ensures ReadValue(text + rest) == Some(ReadJson(value, rest)) &&
            ReadFields(Quoted(name) + (":" + (text + rest)), fields).Some? ==>
              rest == "}" || (rest != "" && rest[0] == ',')
  {
    ReadQuoted(name, rest);
    ReadQuoted(name, ":" + (text + rest));
    assert (":" + (text + rest))[1..] == text + rest;
  }

  /** No other escapes are read, and no control character as it is. */
  lemma OtherEscapesAreRefused(c: char, rest: string)
    ensures c !in "\"\\nrtbfu" ==> ReadText(['\\', c] + rest) == None
    ensures c < ' ' ==> ReadText([c] + rest) == None
  {
    var s := ['\\', c] + rest;
    if c !in "\"\\nrtbfu" {
      assert forall i :: 0 <= i < 8 ==> "\"\\nrtbfu"[i] != c;
      assert "\"\\nrtbfu"[0] == '"' && "\"\\nrtbfu"[1] == '\\' && "\"\\nrtbfu"[2] == 'n';
      assert "\"\\nrtbfu"[3] == 'r' && "\"\\nrtbfu"[4] == 't' && "\"\\nrtbfu"[5] == 'b';
      assert "\"\\nrtbfu"[6] == 'f' && "\"\\nrtbfu"[7] == 'u';
      assert s[0] == '\\' && s[1] == c;
    }
  }

  /** No integer starts with a zero, but zero itself. */
  lemma LeadingZeroIsRefused(digits: string, rest: string)
    requires AllDigits(digits) && |digits| > 1 && digits[0] == '0' && (rest == "" || !Digit(rest[0]))
    ensures ReadInt(digits + rest) == None
  {
    DigitsLead(digits, rest);
    assert Digit((digits + rest)[0]) && (digits + rest)[0] == digits[0];
  }

  /** Hexadecimal digits are read in either case. */
  lemma HexIsReadInEitherCase()
    ensures HexValue('a') == HexValue('A') == 10 && HexValue('f') == HexValue('F') == 15
    ensures !IsHex('g') && !IsHex('G') && !IsHex('@') && !IsHex('`')
  {
  }

  // ----- How long strings get -----

  /** Characters that JSON text holds as they are. */
  predicate Plain(c: char) {
    ' ' <= c <= '~' && c != '"' && c != '\\'
  }

  /** They are exactly the ones written as a single character. */
  lemma PlainIsExact(c: char)
    ensures Plain(c) <==> Escape(c) == [c]
  {
  }

  lemma {:induction false} PlainLength(text: string)
    requires forall i :: 0 <= i < |text| ==> Plain(text[i])
    ensures |Escaped(text)| == |text|
  {
    if text != "" {
      PlainLength(text[1..]);
    }
  }

  lemma {:induction false} PlainText(text: string)
    requires forall i :: 0 <= i < |text| ==> Plain(text[i])
    ensures Escaped(text) == text && Quoted(text) == "\"" + text + "\""
  {
    if text != "" {
      PlainText(text[1..]);
    }
  }

  /** Characters beyond ASCII within 16 bits, such as Cyrillic letters. */
  predicate Wide(c: char) {
    '~' < c && c as int < 0x10000
  }

  lemma {:induction false} WideLength(text: string)
    requires forall i :: 0 <= i < |text| ==> Wide(text[i])
    ensures |Escaped(text)| == 6 * |text|
  {
    if text != "" {
      WideLength(text[1..]);
    }
  }
}
