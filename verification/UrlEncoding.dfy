/** `URLSearchParams` as a list of name-value pairs (sections 5.1 and 5.2 of the WHATWG URL Standard)
    and `encodeURIComponent` / `decodeURIComponent` (section 19.2.6 of ECMA-262).

    Parsing is total: malformed escapes stay as they are and malformed UTF-8 is replaced.
    `decodeURIComponent` is not: it fails where JavaScript throws. */
module UrlEncoding {
  import opened Text
  import Utf8

  type Byte = Utf8.Byte
  type Pairs = seq<(string, string)>

  // ---- Percent encoding of bytes -------------------------------------------------------------

  function HexDigit(d: nat): (c: char)
    requires d < 16
    ensures IsDigit(c) || 'A' <= c <= 'F'
  {
    if d < 10 then (d + '0' as int) as char else (d - 10 + 'A' as int) as char
  }

  /** The value of a hexadecimal digit of either case, or 16 for any other code. */
  function HexValue(code: nat): (d: nat)
    ensures d <= 16
  {
    if '0' as int <= code <= '9' as int then code - '0' as int
    else if 'A' as int <= code <= 'F' as int then code - 'A' as int + 10
    else if 'a' as int <= code <= 'f' as int then code - 'a' as int + 10
    else 16
  }

  function PercentEncode(b: Byte): string {
    ['%', HexDigit(b / 16), HexDigit(b % 16)]
  }

  /** Bytes `%XX` become the byte XX; a percent sign without two hexadecimal digits stays. */
  function PercentDecode(bytes: seq<Byte>): seq<Byte> {
    if bytes == [] then []
    else if bytes[0] == '%' as int && |bytes| >= 3 && HexValue(bytes[1]) < 16 && HexValue(bytes[2]) < 16 then
      [16 * HexValue(bytes[1]) + HexValue(bytes[2])] + PercentDecode(bytes[3..])
    else [bytes[0]] + PercentDecode(bytes[1..])
  }

  /** The digits of both cases, by their place in the two alphabets. */
  lemma HexIff(code: nat, d: nat)
    requires d < 16
    ensures HexValue(code) == d <==> code == "0123456789abcdef"[d] as int || code == "0123456789ABCDEF"[d] as int
  {
    if HexValue(code) < 16 {
      var n := HexValue(code);
      assert "0123456789abcdef"[n] as int == code || "0123456789ABCDEF"[n] as int == code;
    }
  }

  lemma HexRoundTrip(b: Byte)
    ensures HexValue(HexDigit(b / 16) as int) == b / 16 && HexValue(HexDigit(b % 16) as int) == b % 16
    ensures b / 16 < 16 && 16 * (b / 16) + b % 16 == b
  {
  }

  // ---- application/x-www-form-urlencoded -----------------------------------------------------

  predicate FormSafe(b: Byte) {
    b < 0x80 && (IsAlphanumeric(b as char) || b as char in "*-._")
  }

  function FormByte(b: Byte): string {
    if b == 0x20 then "+" else if FormSafe(b) then [b as char] else PercentEncode(b)
  }

  function FormBytes(bytes: seq<Byte>): string {
    if bytes == [] then "" else FormByte(bytes[0]) + FormBytes(bytes[1..])
  }

  function FormEncode(s: string): string { FormBytes(Utf8.Encode(s)) }

  function PlusToSpace(s: string): (t: string)
    ensures |t| == |s|
    ensures forall i | 0 <= i < |s| :: t[i] == if s[i] == '+' then ' ' else s[i]
  {
    if s == "" then "" else [if s[0] == '+' then ' ' else s[0]] + PlusToSpace(s[1..])
  }

  function FormDecode(s: string): string {
    Utf8.Decode(PercentDecode(Utf8.Encode(PlusToSpace(s))))
  }

  function SerializePair(pair: (string, string)): string {
    FormEncode(pair.0) + "=" + FormEncode(pair.1)
  }

  function SerializeAll(pairs: Pairs): seq<string> {
    if pairs == [] then [] else [SerializePair(pairs[0])] + SerializeAll(pairs[1..])
  }

  /** `URLSearchParams.prototype.toString`. */
  function Serialize(pairs: Pairs): string { Join(SerializeAll(pairs), "&") }

  function ParsePiece(piece: string): (string, string) {
    var i := IndexOf(piece, '=');
    (FormDecode(piece[..i]), if i < |piece| then FormDecode(piece[i + 1..]) else "")
  }

  function ParsePieces(pieces: seq<string>): Pairs {
    if pieces == [] then []
    else if pieces[0] == "" then ParsePieces(pieces[1..])
    else [ParsePiece(pieces[0])] + ParsePieces(pieces[1..])
  }

  /** The `URLSearchParams` constructor on a string without a leading question mark. The
      delimiters are ASCII, so they split the characters exactly as they split the UTF-8 bytes. */
  function Parse(query: string): Pairs { ParsePieces(Split(query, '&')) }

  /** `get`, with the empty string for a missing name: every caller treats the two alike. */
  function Get(pairs: Pairs, name: string): string {
    if pairs == [] then "" else if pairs[0].0 == name then pairs[0].1 else Get(pairs[1..], name)
  }

  function Remove(pairs: Pairs, name: string): Pairs {
    if pairs == [] then []
    else if pairs[0].0 == name then Remove(pairs[1..], name)
    else [pairs[0]] + Remove(pairs[1..], name)
  }

  /** `set`: the first pair of that name takes the value and the others go; else it is appended. */
  function Set(pairs: Pairs, name: string, value: string): Pairs {
    if pairs == [] then [(name, value)]
    else if pairs[0].0 == name then [(name, value)] + Remove(pairs[1..], name)
    else [pairs[0]] + Set(pairs[1..], name, value)
  }

  lemma {:induction false} GetRemoveOther(pairs: Pairs, name: string, other: string)
    requires other != name
    ensures Get(Remove(pairs, name), other) == Get(pairs, other)
  {
    if pairs != [] {
      GetRemoveOther(pairs[1..], name, other);
    }
  }

  lemma {:induction false} GetSet(pairs: Pairs, name: string, value: string, other: string)
    ensures Get(Set(pairs, name, value), other) == if other == name then value else Get(pairs, other)
  {
    if pairs != [] {
      GetSet(pairs[1..], name, value, other);
      if other != name {
        GetRemoveOther(pairs[1..], name, other);
      }
    }
  }

  /** A name that never occurs is appended by `set`. */
  lemma {:induction false} SetFresh(pairs: Pairs, name: string, value: string)
    requires forall pair | pair in pairs :: pair.0 != name
    ensures Set(pairs, name, value) == pairs + [(name, value)]
  {
    if pairs != [] {
      assert pairs[0] in pairs;
      SetFresh(pairs[1..], name, value);
    }
  }

  // ---- Round trip of the form encoding -------------------------------------------------------

  /** Characters a serialized name or value is made of. */
  predicate FormCharacter(c: char) {
    IsAlphanumeric(c) || c in "*-._+%"
  }

  lemma {:induction false} FormBytesCharacters(bytes: seq<Byte>)
    ensures All(FormBytes(bytes), FormCharacter)
  {
    if bytes != [] {
      FormBytesCharacters(bytes[1..]);
      assert All(FormByte(bytes[0]), FormCharacter);
    }
  }

  lemma PlainByteDecodes(b: Byte, rest: string)
    requires b == 0x20 || FormSafe(b)
    ensures PercentDecode(Utf8.Encode(PlusToSpace(FormByte(b) + rest)))
         == [b] + PercentDecode(Utf8.Encode(PlusToSpace(rest)))
  {
    var t := PlusToSpace(rest);
    var tail := Utf8.Encode(t);
    assert PlusToSpace(FormByte(b) + rest) == [b as char] + t;
    assert ([b as char] + t)[1..] == t;
    assert Utf8.Encode([b as char] + t) == [b] + tail;
    assert ([b] + tail)[1..] == tail;
  }

  lemma EscapedByteDecodes(b: Byte, rest: string)
    requires b != 0x20 && !FormSafe(b)
    ensures PercentDecode(Utf8.Encode(PlusToSpace(FormByte(b) + rest)))
         == [b] + PercentDecode(Utf8.Encode(PlusToSpace(rest)))
  {
    hide Utf8.Encode;
    var t := PlusToSpace(rest);
    var tail := Utf8.Encode(t);
    var x, y := HexDigit(b / 16), HexDigit(b % 16);
    HexRoundTrip(b);
    assert PlusToSpace(FormByte(b) + rest) == ['%', x, y] + t;
    EncodeAscii3('%', x, y, t);
    var bytes := ['%' as int, x as int, y as int] + tail;
    assert bytes[3..] == tail;
  }

  /** One encoded byte decodes back to itself, whatever encoded text follows. */
  lemma FormByteDecodes(b: Byte, rest: string)
    ensures PercentDecode(Utf8.Encode(PlusToSpace(FormByte(b) + rest)))
         == [b] + PercentDecode(Utf8.Encode(PlusToSpace(rest)))
  {
    hide PercentDecode;
    hide PlusToSpace;
    if b == 0x20 || FormSafe(b) {
      PlainByteDecodes(b, rest);
    } else {
      EscapedByteDecodes(b, rest);
    }
  }

  lemma EncodeAscii3(a: char, b: char, c: char, rest: string)
    requires a as int < 0x80 && b as int < 0x80 && c as int < 0x80
    ensures Utf8.Encode([a, b, c] + rest) == [a as int, b as int, c as int] + Utf8.Encode(rest)
  {
    assert ([a, b, c] + rest)[1..] == [b, c] + rest;
    assert ([b, c] + rest)[1..] == [c] + rest;
    assert ([c] + rest)[1..] == rest;
    assert Utf8.Encode([c] + rest) == [c as int] + Utf8.Encode(rest);
    assert Utf8.Encode([b, c] + rest) == [b as int] + Utf8.Encode([c] + rest);
  }

  lemma {:induction false} FormBytesDecode(bytes: seq<Byte>)
    ensures PercentDecode(Utf8.Encode(PlusToSpace(FormBytes(bytes)))) == bytes
  {
    if bytes != [] {
      FormByteDecodes(bytes[0], FormBytes(bytes[1..]));
      FormBytesDecode(bytes[1..]);
    }
  }

  lemma FormRoundTrip(s: string)
    ensures FormDecode(FormEncode(s)) == s
  {
    FormBytesDecode(Utf8.Encode(s));
    Utf8.RoundTrip(s);
  }

  lemma FormEncodeCharacters(s: string)
    ensures '=' !in FormEncode(s) && '&' !in FormEncode(s) && '?' !in FormEncode(s)
  {
    FormBytesCharacters(Utf8.Encode(s));
    assert !FormCharacter('=') && !FormCharacter('&') && !FormCharacter('?');
  }

  lemma SplitAtEquals(name: string, value: string)
    requires '=' !in name
    ensures ParsePiece(name + "=" + value) == (FormDecode(name), FormDecode(value))
  {
    var piece := name + "=" + value;
    assert piece == name + ['='] + value;
    IndexOfConcat(name, '=', value);
    assert piece[..|name|] == name;
    assert piece[|name| + 1..] == value;
  }

  lemma PieceRoundTrip(pair: (string, string))
    ensures SerializePair(pair) != "" && ParsePiece(SerializePair(pair)) == pair
    ensures '&' !in SerializePair(pair) && '?' !in SerializePair(pair)
  {
    FormEncodeCharacters(pair.0);
    FormEncodeCharacters(pair.1);
    SplitAtEquals(FormEncode(pair.0), FormEncode(pair.1));
    FormRoundTrip(pair.0);
    FormRoundTrip(pair.1);
  }

  lemma {:induction false} PiecesRoundTrip(pairs: Pairs)
    ensures ParsePieces(SerializeAll(pairs)) == pairs
    ensures |SerializeAll(pairs)| == |pairs|
    ensures forall piece | piece in SerializeAll(pairs) :: '&' !in piece && '?' !in piece
  {
    if pairs != [] {
      PieceRoundTrip(pairs[0]);
      PiecesRoundTrip(pairs[1..]);
    }
  }

  lemma ParseSerialize(pairs: Pairs)
    ensures Parse(Serialize(pairs)) == pairs
  {
    PiecesRoundTrip(pairs);
    if pairs == [] {
      assert Split("", '&') == [""];
      assert [""][1..] == [];
    } else {
      SplitJoin(SerializeAll(pairs), '&');
    }
  }

  // ---- Decoding never lengthens --------------------------------------------------------------

  lemma {:induction false} DecodeBytesShorter(s: string)
    ensures |Utf8.Decode(PercentDecode(Utf8.Encode(s)))| <= |s|
    decreases |s|
  {
    if s != "" {
      var rest := s[1..];
      var bytes := Utf8.Encode(s);
      DecodeBytesShorter(rest);
      if s[0] as int >= 0x80 {
        PercentDecodeEncodedChar(s[0], rest);
        Utf8.DecodeEncodedChar(s[0], PercentDecode(Utf8.Encode(rest)));
      } else {
        assert bytes == [s[0] as int] + Utf8.Encode(rest);
        assert bytes[1..] == Utf8.Encode(rest);
        if bytes[0] == '%' as int && |bytes| >= 3 && HexValue(bytes[1]) < 16 && HexValue(bytes[2]) < 16 {
          EscapeIsAscii(rest);
          DecodeBytesShorter(s[3..]);
          assert bytes[3..] == Utf8.Encode(rest)[2..];
          assert rest[2..] == s[3..];
          Utf8.DecodePrepend(16 * HexValue(bytes[1]) + HexValue(bytes[2]), PercentDecode(bytes[3..]));
        } else {
          Utf8.DecodePrepend(bytes[0], PercentDecode(bytes[1..]));
        }
      }
    }
  }

  /** Two ASCII bytes in front of an encoding are two ASCII characters in front of the text. */
  lemma EscapeIsAscii(s: string)
    requires var bytes := Utf8.Encode(s); |bytes| >= 2 && HexValue(bytes[0]) < 16 && HexValue(bytes[1]) < 16
    ensures |s| >= 2 && Utf8.Encode(s)[2..] == Utf8.Encode(s[2..])
  {
    assert s != "";
    assert Utf8.Encode(s)[0] == Utf8.EncodeChar(s[0])[0];
    assert Utf8.Encode(s) == [s[0] as int] + Utf8.Encode(s[1..]);
    assert s[1..] != "";
    assert Utf8.Encode(s)[1] == Utf8.Encode(s[1..])[0] == Utf8.EncodeChar(s[1])[0];
    assert Utf8.Encode(s[1..]) == [s[1] as int] + Utf8.Encode(s[1..][1..]);
    assert s[1..][1..] == s[2..];
  }

  lemma PercentDecodeEncodedChar(c: char, rest: string)
    requires c as int >= 0x80
    ensures PercentDecode(Utf8.Encode([c] + rest)) == Utf8.EncodeChar(c) + PercentDecode(Utf8.Encode(rest))
  {
    assert ([c] + rest)[1..] == rest;
    PercentDecodeSkip(Utf8.EncodeChar(c), Utf8.Encode(rest));
  }

  lemma {:induction false} PercentDecodeSkip(bytes: seq<Byte>, rest: seq<Byte>)
    requires forall i | 0 <= i < |bytes| :: bytes[i] >= 0x80
    ensures PercentDecode(bytes + rest) == bytes + PercentDecode(rest)
  {
    if bytes == [] {
      assert bytes + rest == rest;
    } else {
      assert (bytes + rest)[1..] == bytes[1..] + rest;
      PercentDecodeSkip(bytes[1..], rest);
    }
  }

  lemma FormDecodeShorter(s: string)
    ensures |FormDecode(s)| <= |s|
  {
    DecodeBytesShorter(PlusToSpace(s));
  }

  lemma {:induction false} GetPiecesShorter(pieces: seq<string>, name: string, bound: nat)
    requires forall piece | piece in pieces :: |piece| <= bound
    ensures |Get(ParsePieces(pieces), name)| < bound || Get(ParsePieces(pieces), name) == ""
  {
    if pieces != [] {
      assert pieces[0] in pieces;
      GetPiecesShorter(pieces[1..], name, bound);
      var i := IndexOf(pieces[0], '=');
      if i < |pieces[0]| {
        FormDecodeShorter(pieces[0][i + 1..]);
      }
    }
  }

  lemma {:induction false} SplitShorter(s: string, c: char)
    ensures forall part | part in Split(s, c) :: |part| <= |s|
    decreases |s|
  {
    var i := IndexOf(s, c);
    if i < |s| {
      SplitShorter(s[i + 1..], c);
    }
  }

  /** A value read from a query is strictly shorter than the query it came from. */
  lemma GetShorter(query: string, name: string)
    requires Get(Parse(query), name) != ""
    ensures |Get(Parse(query), name)| < |query|
  {
    SplitShorter(query, '&');
    GetPiecesShorter(Split(query, '&'), name, |query|);
  }

  // ---- encodeURIComponent and decodeURIComponent ----------------------------------------------

  predicate ComponentSafe(c: char) {
    IsAlphanumeric(c) || c in "-_.!~*'()"
  }

  function PercentBytes(bytes: seq<Byte>): string {
    if bytes == [] then "" else PercentEncode(bytes[0]) + PercentBytes(bytes[1..])
  }

  function ComponentChar(c: char): string {
    if ComponentSafe(c) then [c] else PercentBytes(Utf8.EncodeChar(c))
  }

  function EncodeComponent(s: string): string {
    if s == "" then "" else ComponentChar(s[0]) + EncodeComponent(s[1..])
  }

  /** The byte of a leading `%XX`, or nothing. */
  function Octet(s: string): (b: Option<Byte>)
    ensures b.Some? ==> |s| >= 3
  {
    if |s| >= 3 && s[0] == '%' && HexValue(s[1] as int) < 16 && HexValue(s[2] as int) < 16
    then Some(16 * HexValue(s[1] as int) + HexValue(s[2] as int)) else None
  }

  /** Exactly `n` consecutive `%XX` escapes. */
  function Octets(s: string, n: nat): (r: Option<seq<Byte>>)
    ensures r.Some? ==> |r.value| == n && |s| >= 3 * n
  {
    if n == 0 then Some([])
    else match Octet(s)
      case None => None
      case Some(b) => match Octets(s[3..], n - 1)
        case None => None
        case Some(rest) => Some([b] + rest)
  }

  /** How many octets a lead octet announces; 0 when it cannot lead. */
  function SequenceLength(b: Byte): nat {
    if b < 0x80 then 1
    else if b < 0xC0 then 0
    else if b < 0xE0 then 2
    else if b < 0xF0 then 3
    else if b < 0xF8 then 4
    else 0
  }

  /** `None` stands for the URIError exception. */
  function DecodeComponent(s: string): Option<string>
    decreases |s|
  {
    if s == "" then Some("")
    else if s[0] != '%' then
      match DecodeComponent(s[1..]) case None => None case Some(rest) => Some([s[0]] + rest)
    else match Octet(s)
      case None => None
      case Some(b) =>
        var n := SequenceLength(b);
        if n == 0 then None
        else match Octets(s, n)
          case None => None
          case Some(octets) =>
            var c := Utf8.DecodeOne(octets).0;
            if Utf8.EncodeChar(c) != octets then None
            else match DecodeComponent(s[3 * n..]) case None => None case Some(rest) => Some([c] + rest)
  }

  lemma {:induction false} OctetsDecode(bytes: seq<Byte>, rest: string)
    ensures Octets(PercentBytes(bytes) + rest, |bytes|) == Some(bytes)
    ensures |PercentBytes(bytes)| == 3 * |bytes|
  {
    if bytes != [] {
      HexRoundTrip(bytes[0]);
      var tail := PercentBytes(bytes[1..]) + rest;
      assert PercentBytes(bytes) + rest == PercentEncode(bytes[0]) + tail;
      assert (PercentEncode(bytes[0]) + tail)[3..] == tail;
      assert Octet(PercentEncode(bytes[0]) + tail) == Some(bytes[0]);
      OctetsDecode(bytes[1..], rest);
      assert [bytes[0]] + bytes[1..] == bytes;
    }
  }

  lemma LeadOctet(c: char)
    ensures SequenceLength(Utf8.EncodeChar(c)[0]) == |Utf8.EncodeChar(c)|
  {
  }

  lemma {:induction false} ComponentRoundTrip(s: string)
    ensures DecodeComponent(EncodeComponent(s)) == Some(s)
  {
    if s != "" {
      ComponentRoundTrip(s[1..]);
      var rest := EncodeComponent(s[1..]);
      assert [s[0]] + s[1..] == s;
      if ComponentSafe(s[0]) {
        assert ([s[0]] + rest)[1..] == rest;
      } else {
        var bytes := Utf8.EncodeChar(s[0]);
        OctetsDecode(bytes, rest);
        LeadOctet(s[0]);
        Utf8.DecodeOneEncoded(s[0], []);
        assert bytes + [] == bytes;
        var text := PercentBytes(bytes) + rest;
        assert Octet(text) == Some(bytes[0]) by {
          assert Octets(text, |bytes|) == Some(bytes);
        }
        assert text[0] == '%';
        assert text[3 * |bytes|..] == rest;
      }
    }
  }

  lemma {:induction false} DecodeComponentPlain(s: string)
    requires '%' !in s
    ensures DecodeComponent(s) == Some(s)
  {
    if s != "" {
      assert s[0] in s;
      assert [s[0]] + s[1..] == s;
      DecodeComponentPlain(s[1..]);
    }
  }
}
