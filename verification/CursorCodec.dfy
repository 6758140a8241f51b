/** Unpadded url-safe base64 (section 5 of RFC 4648), as the opaque pagination cursor uses it
    (app/core/pagination.py). */
module CursorCodec {
  import opened Common

  type Byte = b: int | 0 <= b < 256
  type Sextet = v: int | 0 <= v < 64

  // ----- base64url -----

  function Digit(v: Sextet): (c: char)
    ensures c != '=' && c as int < 128
    ensures Value(c) == Some(v)
  {
    if v < 26 then 'A' + v as char
    else if v < 52 then 'a' + (v - 26) as char
    else if v < 62 then '0' + (v - 52) as char
    else if v == 62 then '-' else '_'
  }

  /** The decoder first maps '-' and '_' to '+' and '/', so it accepts either pair. */
  function Value(c: char): Option<Sextet> {
    if 'A' <= c <= 'Z' then Some(c as int - 'A' as int)
    else if 'a' <= c <= 'z' then Some(c as int - 'a' as int + 26)
    else if '0' <= c <= '9' then Some(c as int - '0' as int + 52)
    else if c == '-' || c == '+' then Some(62)
    else if c == '_' || c == '/' then Some(63)
    else None
  }

  /** The four digits of three bytes. */
  function Group(x: Byte, y: Byte, z: Byte): (s: string)
    ensures |s| == 4 && forall i :: 0 <= i < 4 ==> s[i] != '=' && s[i] as int < 128
  {
    [Digit(x / 4), Digit(x % 4 * 16 + y / 16), Digit(y % 16 * 4 + z / 64), Digit(z % 64)]
  }

  /** `base64.urlsafe_b64encode` */
  function Encode(b: seq<Byte>): string {
    if |b| == 0 then ""
    else if |b| == 1 then [Digit(b[0] / 4), Digit(b[0] % 4 * 16), '=', '=']
    else if |b| == 2 then [Digit(b[0] / 4), Digit(b[0] % 4 * 16 + b[1] / 16), Digit(b[1] % 16 * 4), '=']
    else
      Group(b[0], b[1], b[2]) + Encode(b[3..])
  }

  /** The text without the '=' signs at its end. */
  function StripPadding(s: string): string {
    if s != "" && s[|s| - 1] == '=' then StripPadding(s[..|s| - 1]) else s
  }

  function Repeat(c: char, n: nat): (s: string)
    ensures |s| == n
    ensures forall i :: 0 <= i < n ==> s[i] == c
  {
    seq(n, _ => c)
  }

  /** The token filled up with '=' signs to a multiple of four characters. */
  function Repad(token: string): string {
    token + Repeat('=', PadLength(|token|))
  }

  /** The lenient decoder behind `base64.urlsafe_b64decode`: characters outside the alphabet are skipped, a complete pad
      ends the input, and an incomplete last group is an error. `left` holds the bits not yet emitted. */
  function Decode(s: string, quad: nat, left: nat, pads: nat): (r: Option<seq<Byte>>)
    requires quad < 4 && (quad == 0 ==> left == 0) && (quad == 1 ==> left < 64) && (quad == 2 ==> left < 16) &&
             (quad == 3 ==> left < 4)
  {
    if s == "" then if quad == 0 then Some([]) else None
    else if s[0] == '=' then
      var pads' := if quad >= 2 then pads + 1 else pads;
      if quad >= 2 && quad + pads' >= 4 then Some([]) else Decode(s[1..], quad, left, pads')
    else
      match Value(s[0])
      case None => Decode(s[1..], quad, left, pads)
      case Some(v) =>
        if quad == 0 then Decode(s[1..], 1, v, 0)
        else if quad == 1 then Emit(left * 4 + v / 16, Decode(s[1..], 2, v % 16, 0))
        else if quad == 2 then Emit(left * 16 + v / 4, Decode(s[1..], 3, v % 4, 0))
        else Emit(left * 64 + v, Decode(s[1..], 0, 0, 0))
  }

  function Emit(b: Byte, rest: Option<seq<Byte>>): Option<seq<Byte>> {
    match rest
    case None => None
    case Some(bytes) => Some([b] + bytes)
  }

  /** `base64.urlsafe_b64decode`: non-ASCII text is a ValueError. */
  function UrlsafeB64Decode(s: string): Option<seq<Byte>> {
    if exists i :: 0 <= i < |s| && s[i] as int >= 128 then None else Decode(s, 0, 0, 0)
  }

  /** The characters of a token, without padding. */
  function Unpadded(b: seq<Byte>): (s: string)
    ensures |s| == (4 * |b| + 2) / 3
    ensures forall i :: 0 <= i < |s| ==> s[i] != '=' && s[i] as int < 128
  {
    if |b| == 0 then ""
    else if |b| == 1 then [Digit(b[0] / 4), Digit(b[0] % 4 * 16)]
    else if |b| == 2 then [Digit(b[0] / 4), Digit(b[0] % 4 * 16 + b[1] / 16), Digit(b[1] % 16 * 4)]
    else
      Group(b[0], b[1], b[2]) + Unpadded(b[3..])
  }

  lemma {:induction false} StripStops(s: string, n: nat)
    requires forall i :: 0 <= i < |s| ==> s[i] != '='
    ensures StripPadding(s + Repeat('=', n)) == s
    decreases n
  {
    var t := s + Repeat('=', n);
    if n > 0 {
      assert t[..|t| - 1] == s + Repeat('=', n - 1);
      StripStops(s, n - 1);
    } else {
      assert t == s;
    }
  }

  function PadLength(n: nat): nat {
    (4 - n % 4) % 4
  }

  lemma EncodeShortIsPadded(b: seq<Byte>)
    requires |b| < 3
    ensures Encode(b) == Unpadded(b) + Repeat('=', PadLength(|Unpadded(b)|))
  {
    assert Repeat('=', 1) == ['='] && Repeat('=', 2) == ['=', '='] && Repeat('=', 0) == "";
  }

  lemma PadGroup(group: string, rest: string)
    requires |group| == 4
    ensures group + (rest + Repeat('=', PadLength(|rest|))) == group + rest + Repeat('=', PadLength(|group + rest|))
  {
    assert PadLength(|group + rest|) == PadLength(|rest|);
  }

  lemma {:induction false} EncodeIsPadded(b: seq<Byte>)
    ensures Encode(b) == Unpadded(b) + Repeat('=', PadLength(|Unpadded(b)|))
    decreases |b|
  {
    if |b| >= 3 {
      EncodeIsPadded(b[3..]);
      PadGroup(Group(b[0], b[1], b[2]), Unpadded(b[3..]));
    } else {
      EncodeShortIsPadded(b);
    }
  }

  lemma DecodeDigit(v: Sextet, rest: string, quad: nat, left: nat)
    requires quad < 4 && (quad == 0 ==> left == 0) && (quad == 1 ==> left < 64) && (quad == 2 ==> left < 16) &&
             (quad == 3 ==> left < 4)
    ensures Decode([Digit(v)] + rest, quad, left, 0) ==
            if quad == 0 then Decode(rest, 1, v, 0)
            else if quad == 1 then Emit(left * 4 + v / 16, Decode(rest, 2, v % 16, 0))
            else if quad == 2 then Emit(left * 16 + v / 4, Decode(rest, 3, v % 4, 0))
            else Emit(left * 64 + v, Decode(rest, 0, 0, 0))
  {
    assert ([Digit(v)] + rest)[1..] == rest;
  }

  /** Four digits give three bytes. */
  lemma DecodeGroup(a: Sextet, b: Sextet, c: Sextet, d: Sextet, rest: string)
    ensures Decode([Digit(a), Digit(b), Digit(c), Digit(d)] + rest, 0, 0, 0) ==
            Emit(a * 4 + b / 16, Emit(b % 16 * 16 + c / 4, Emit(c % 4 * 64 + d, Decode(rest, 0, 0, 0))))
  {
    DecodeDigit(d, rest, 3, c % 4);
    DecodeDigit(c, [Digit(d)] + rest, 2, b % 16);
    DecodeDigit(b, [Digit(c)] + ([Digit(d)] + rest), 1, a);
    DecodeDigit(a, [Digit(b)] + ([Digit(c)] + ([Digit(d)] + rest)), 0, 0);
    assert [Digit(a), Digit(b), Digit(c), Digit(d)] + rest ==
           [Digit(a)] + ([Digit(b)] + ([Digit(c)] + ([Digit(d)] + rest)));
  }

  lemma DecodeOneByte(a: Sextet, b: Sextet)
    ensures Decode([Digit(a), Digit(b), '=', '='], 0, 0, 0) == Some([a * 4 + b / 16])
  {
    assert ['=', '='][1..] == ['='];
    assert Decode(['=', '='], 2, b % 16, 0) == Some([]);
    DecodeDigit(b, ['=', '='], 1, a);
    DecodeDigit(a, [Digit(b)] + ['=', '='], 0, 0);
    assert [Digit(a)] + ([Digit(b)] + ['=', '=']) == [Digit(a), Digit(b), '=', '='];
    assert [a * 4 + b / 16] + [] == [a * 4 + b / 16];
  }

  lemma DecodeTwoBytes(a: Sextet, b: Sextet, c: Sextet)
    ensures Decode([Digit(a), Digit(b), Digit(c), '='], 0, 0, 0) == Some([a * 4 + b / 16, b % 16 * 16 + c / 4])
  {
    assert Decode(['='], 3, c % 4, 0) == Some([]);
    DecodeDigit(c, ['='], 2, b % 16);
    DecodeDigit(b, [Digit(c)] + ['='], 1, a);
    DecodeDigit(a, [Digit(b)] + ([Digit(c)] + ['=']), 0, 0);
    assert [Digit(a)] + ([Digit(b)] + ([Digit(c)] + ['='])) == [Digit(a), Digit(b), Digit(c), '='];
    var x, y := a * 4 + b / 16, b % 16 * 16 + c / 4;
    assert [y] + [] == [y] && [x] + [y] == [x, y];
  }

  lemma SextetsHoldBytes(x: Byte, y: Byte, z: Byte)
    ensures x / 4 * 4 + (x % 4 * 16 + y / 16) / 16 == x
    ensures (x % 4 * 16 + y / 16) % 16 * 16 + (y % 16 * 4 + z / 64) / 4 == y
    ensures (y % 16 * 4 + z / 64) % 4 * 64 + z % 64 == z
  {
    assert (x % 4 * 16 + y / 16) / 16 == x % 4;
    assert (x % 4 * 16 + y / 16) % 16 == y / 16;
    assert (y % 16 * 4 + z / 64) / 4 == y % 16;
    assert (y % 16 * 4 + z / 64) % 4 == z / 64;
  }

  lemma OneByteFits(x: Byte)
    ensures x / 4 * 4 + (x % 4 * 16) / 16 == x
  {
  }

  lemma TwoBytesFit(x: Byte, y: Byte)
    ensures x / 4 * 4 + (x % 4 * 16 + y / 16) / 16 == x
    ensures (x % 4 * 16 + y / 16) % 16 * 16 + (y % 16 * 4) / 4 == y
  {
    SextetsHoldBytes(x, y, 0);
  }

  lemma DecodeInvertsOne(x: Byte)
    ensures Decode(Encode([x]), 0, 0, 0) == Some([x])
  {
    OneByteFits(x);
    DecodeOneByte(x / 4, x % 4 * 16);
  }

  lemma DecodeInvertsTwo(x: Byte, y: Byte)
    ensures Decode(Encode([x, y]), 0, 0, 0) == Some([x, y])
  {
    TwoBytesFit(x, y);
    DecodeTwoBytes(x / 4, x % 4 * 16 + y / 16, y % 16 * 4);
  }

  lemma DecodeGroupAs(a: Sextet, b: Sextet, c: Sextet, d: Sextet, x: Byte, y: Byte, z: Byte, rest: string)
    requires a * 4 + b / 16 == x && b % 16 * 16 + c / 4 == y && c % 4 * 64 + d == z
    ensures Decode([Digit(a), Digit(b), Digit(c), Digit(d)] + rest, 0, 0, 0) ==
            Emit(x, Emit(y, Emit(z, Decode(rest, 0, 0, 0))))
  {
    DecodeGroup(a, b, c, d, rest);
  }

  lemma DecodeBytes(x: Byte, y: Byte, z: Byte, rest: string)
    ensures Decode(Group(x, y, z) + rest, 0, 0, 0) == Emit(x, Emit(y, Emit(z, Decode(rest, 0, 0, 0))))
  {
    SextetsHoldBytes(x, y, z);
    DecodeGroupAs(x / 4, x % 4 * 16 + y / 16, y % 16 * 4 + z / 64, z % 64, x, y, z, rest);
  }

  lemma EncodeGroup(x: Byte, y: Byte, z: Byte, rest: seq<Byte>)
    ensures Encode([x, y, z] + rest) == Group(x, y, z) + Encode(rest)
  {
    assert ([x, y, z] + rest)[3..] == rest;
  }

  lemma DecodeInvertsGroup(x: Byte, y: Byte, z: Byte, rest: seq<Byte>)
    requires Decode(Encode(rest), 0, 0, 0) == Some(rest)
    ensures Decode(Encode([x, y, z] + rest), 0, 0, 0) == Some([x, y, z] + rest)
  {
    EncodeGroup(x, y, z, rest);
    DecodeBytes(x, y, z, Encode(rest));
    assert [x] + ([y] + ([z] + rest)) == [x, y, z] + rest;
  }

  lemma {:induction false} DecodeInverts(b: seq<Byte>)
    ensures Decode(Encode(b), 0, 0, 0) == Some(b)
    decreases |b|
  {
    if |b| >= 3 {
      DecodeInverts(b[3..]);
      DecodeInvertsGroup(b[0], b[1], b[2], b[3..]);
      assert [b[0], b[1], b[2]] + b[3..] == b;
    } else if |b| == 2 {
      DecodeInvertsTwo(b[0], b[1]);
      assert [b[0], b[1]] == b;
    } else if |b| == 1 {
      DecodeInvertsOne(b[0]);
      assert [b[0]] == b;
    }
  }

  /** Dropping the padding and restoring it with `-len % 4` loses nothing, for every byte string. */
  lemma PaddingRoundTrip(b: seq<Byte>)
    ensures UrlsafeB64Decode(Repad(StripPadding(Encode(b)))) == Some(b)
    ensures StripPadding(Encode(b)) == Unpadded(b)
  {
    EncodeIsPadded(b);
    StripStops(Unpadded(b), PadLength(|Unpadded(b)|));
    DecodeInverts(b);
    assert Repad(Unpadded(b)) == Encode(b);
    assert forall i :: 0 <= i < |Encode(b)| ==> Encode(b)[i] as int < 128;
  }

  /** The ends of the four stretches of the alphabet of section 5 of RFC 4648. */
  lemma Alphabet()
    ensures [Digit(0), Digit(25), Digit(26), Digit(51), Digit(52), Digit(61), Digit(62), Digit(63)] == "AZaz09-_"
  {
  }

  /** A test vector of section 10 of RFC 4648: "fooba" is "Zm9vYmE=". */
  lemma Fooba()
    ensures Encode([102, 111, 111, 98, 97]) == "Zm9vYmE="
  {
    assert [102, 111, 111, 98, 97][3..] == [98, 97];
    assert Group(102, 111, 111) == "Zm9v" && Encode([98, 97]) == "YmE=";
  }

  /** Padding must be complete, either pair of the last two digits is read, and non-ASCII text is refused. */
  lemma DecoderIsLenient()
    ensures Decode("QQ==", 0, 0, 0) == Some([65]) && Decode("QQ=", 0, 0, 0) == Decode("QQ", 0, 0, 0) == None
    ensures Value('+') == Value('-') == Some(62) && Value('/') == Value('_') == Some(63)
    ensures Value('=') == Value('*') == None
    ensures UrlsafeB64Decode([0x80 as char]) == None
  {
    DecodeOneByte(16, 16);
    assert "="[1..] == "" && Decode("=", 2, 0, 0) == None && Decode("", 2, 0, 0) == None;
    DecodeDigit(16, "=", 1, 16);
    DecodeDigit(16, [Digit(16)] + "=", 0, 0);
    DecodeDigit(16, "", 1, 16);
    DecodeDigit(16, [Digit(16)] + "", 0, 0);
    assert [Digit(16)] + ([Digit(16)] + "=") == "QQ=" && [Digit(16)] + ([Digit(16)] + "") == "QQ";
    assert [Digit(16), Digit(16), '=', '='] == "QQ==";
    assert [0x80 as char][0] as int >= 128;
  }
}
