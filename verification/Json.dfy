/** Python's `json.dumps` with its default settings and JavaScript's `JSON.parse`, on JSON texts as
    RFC 8259 defines them.

    Numbers are kept as text. The printer escapes everything outside ASCII. */
module Json {
  import opened Text

  /** A JSON value; a number is kept as its text, an object as its members in order. */
  datatype Value =
    | Null
    | Bool(b: bool)
    | Number(text: string)
    | Str(s: string)
    | Array(items: seq<Value>)
    | Object(members: seq<Member>)

  datatype Member = Member(key: string, value: Value)

  /** The value of an object under a key, the last one when the key is repeated. */
  function Field(v: Value, key: string): Option<Value> {
    if v.Object? then Lookup(v.members, key) else None
  }

  function Lookup(members: seq<Member>, key: string): Option<Value> {
    if members == [] then None
    else
      var later := Lookup(members[1..], key);
      if later.Some? then later else if members[0].key == key then Some(members[0].value) else None
  }

  lemma FieldOfOne(key: string, v: Value, other: string)
    ensures Field(Object([Member(key, v)]), other) == if other == key then Some(v) else None
  {
    LookupFirst(Member(key, v), [], other);
    assert [Member(key, v)] == [Member(key, v)] + [];
  }

  lemma FieldOfTwo(key: string, v: Value, second: string, w: Value, other: string)
    requires key != second
    ensures Field(Object([Member(key, v), Member(second, w)]), other)
         == if other == key then Some(v) else if other == second then Some(w) else None
  {
    LookupFirst(Member(key, v), [Member(second, w)], other);
    FieldOfOne(second, w, other);
    assert [Member(key, v), Member(second, w)] == [Member(key, v)] + [Member(second, w)];
  }

  lemma LookupFirst(m: Member, rest: seq<Member>, key: string)
    ensures Lookup([m] + rest, key)
         == if Lookup(rest, key).Some? then Lookup(rest, key) else if m.key == key then Some(m.value) else None
  {
    assert ([m] + rest)[1..] == rest;
  }

  // ---- Numbers (section 6 of RFC 8259) -----------------------------------------------------------

  predicate NumberCharacter(c: char) { IsDigit(c) || c in "+-.eE" }

  function SkipDigits(s: string): (rest: string)
    ensures |rest| <= |s|
  {
    if s != "" && IsDigit(s[0]) then SkipDigits(s[1..]) else s
  }

  predicate Digits(s: string) { s != "" && All(s, IsDigit) }

  /** What may follow the integer part: an optional fraction, then an optional exponent. */
  predicate ValidFraction(s: string) {
    if s != "" && s[0] == '.' then |s| > 1 && IsDigit(s[1]) && ValidExponent(SkipDigits(s[1..])) else ValidExponent(s)
  }

  predicate ValidExponent(s: string) {
    s == "" || (s[0] in "eE" && Digits(if |s| > 1 && s[1] in "+-" then s[2..] else s[1..]))
  }

  predicate ValidNumber(s: string) {
    var t := if s != "" && s[0] == '-' then s[1..] else s;
    t != "" && IsDigit(t[0]) && ValidFraction(if t[0] == '0' then t[1..] else SkipDigits(t))
  }

  /** The parts of the standard's grammar: a whole number without leading zero, a fraction, an exponent. */
  predicate WholePart(s: string) {
    s != "" && (s == "0" || s[0] != '0') && forall k | 0 <= k < |s| :: '0' <= s[k] <= '9'
  }

  predicate FractionPart(s: string) {
    s == "" || (|s| > 1 && s[0] == '.' && forall k | 1 <= k < |s| :: '0' <= s[k] <= '9')
  }

  predicate ExponentPart(s: string) {
    || s == ""
    || (|s| > 1 && (s[0] == 'e' || s[0] == 'E')
        && (s[1] == '+' || s[1] == '-' ==> |s| > 2)
        && (s[1] == '+' || s[1] == '-' || '0' <= s[1] <= '9')
        && forall k | 2 <= k < |s| :: '0' <= s[k] <= '9')
  }

  /** The scan accepts exactly the grammar's numerals. */
  lemma NumberIff(s: string)
    ensures ValidNumber(s)
       <==> exists minus, whole, fraction, exponent ::
              && s == minus + whole + fraction + exponent && (minus == "" || minus == "-")
              && WholePart(whole) && FractionPart(fraction) && ExponentPart(exponent)
  {
    hide ValidNumber;
    hide WholePart;
    hide FractionPart;
    hide ExponentPart;
    if ValidNumber(s) {
      var minus, whole, fraction, exponent := NumberParts(s);
    }
    if minus, whole, fraction, exponent
      :| && s == minus + whole + fraction + exponent && (minus == "" || minus == "-")
         && WholePart(whole) && FractionPart(fraction) && ExponentPart(exponent)
    {
      NumeralValid(minus, whole, fraction, exponent);
    }
  }

  lemma {:induction false} Skipped(s: string) returns (n: nat)
    ensures n <= |s| && SkipDigits(s) == s[n..] && (n < |s| ==> !IsDigit(s[n]))
    ensures forall k | 0 <= k < n :: IsDigit(s[k])
  {
    n := 0;
    if s != "" && IsDigit(s[0]) {
      var m := Skipped(s[1..]);
      n := m + 1;
    }
  }

  lemma {:induction false} SkipOver(digits: string, rest: string)
    requires forall k | 0 <= k < |digits| :: IsDigit(digits[k])
    requires rest == "" || !IsDigit(rest[0])
    ensures SkipDigits(digits + rest) == rest
  {
    if digits == "" {
      assert digits + rest == rest;
    } else {
      assert (digits + rest)[1..] == digits[1..] + rest;
      SkipOver(digits[1..], rest);
    }
  }

  lemma DigitsFrom(s: string, from: nat)
    requires from <= |s|
    ensures Digits(s[from..]) <==> from < |s| && forall k | from <= k < |s| :: '0' <= s[k] <= '9'
  {
    var rest := s[from..];
    if Digits(rest) {
      forall k | from <= k < |s| ensures '0' <= s[k] <= '9' {
        assert s[k] == rest[k - from] && rest[k - from] in rest;
      }
    }
  }

  lemma ExponentIff(e: string)
    ensures ValidExponent(e) <==> ExponentPart(e)
    ensures ExponentPart(e) && e != "" ==> !IsDigit(e[0]) && e[0] != '.'
  {
    hide Digits;
    if |e| > 0 {
      DigitsFrom(e, 1);
    }
    if |e| > 1 {
      DigitsFrom(e, 2);
    }
  }

  lemma FractionParts(s: string) returns (fraction: string, exponent: string)
    requires ValidFraction(s)
    ensures s == fraction + exponent && FractionPart(fraction) && ValidExponent(exponent)
  {
    if s != "" && s[0] == '.' {
      var n := Skipped(s[1..]);
      fraction, exponent := s[..n + 1], s[1..][n..];
      assert forall k | 1 <= k < |fraction| :: IsDigit(fraction[k]) by {
        assert forall k | 1 <= k < |fraction| :: fraction[k] == s[1..][k - 1];
      }
    } else {
      fraction, exponent := "", s;
    }
  }

  lemma NumberParts(s: string) returns (minus: string, whole: string, fraction: string, exponent: string)
    requires ValidNumber(s)
    ensures s == minus + whole + fraction + exponent && (minus == "" || minus == "-")
    ensures WholePart(whole) && FractionPart(fraction) && ExponentPart(exponent)
  {
    hide ValidFraction;
    hide ValidExponent;
    hide FractionPart;
    hide ExponentPart;
    hide WholePart;
    hide SkipDigits;
    minus := if s[0] == '-' then "-" else "";
    var t := s[|minus|..];
    assert s == minus + t;
    var n := WholeSplit(t);
    whole := t[..n];
    assert t == whole + t[n..];
    fraction, exponent := FractionParts(t[n..]);
    ExponentIff(exponent);
    FourParts(minus, whole, fraction, exponent);
  }

  lemma FourParts(a: string, b: string, c: string, d: string)
    ensures a + (b + (c + d)) == a + b + c + d
  {
  }

  lemma WholeSplit(t: string) returns (n: nat)
    requires t != "" && IsDigit(t[0])
    ensures n <= |t| && WholePart(t[..n]) && t[n..] == if t[0] == '0' then t[1..] else SkipDigits(t)
  {
    n := 1;
    if t[0] != '0' {
      n := Skipped(t);
    }
  }

  lemma TailValid(fraction: string, exponent: string)
    requires FractionPart(fraction) && ExponentPart(exponent)
    ensures ValidFraction(fraction + exponent)
    ensures fraction + exponent == "" || !IsDigit((fraction + exponent)[0])
  {
    hide ValidExponent;
    hide ExponentPart;
    ExponentIff(exponent);
    var tail := fraction + exponent;
    if fraction == "" {
      assert tail == exponent;
    } else {
      assert tail[0] == '.' && tail[1] == fraction[1] && tail[1..] == fraction[1..] + exponent;
      SkipOver(fraction[1..], exponent);
    }
  }

  lemma NumeralValid(minus: string, whole: string, fraction: string, exponent: string)
    requires minus == "" || minus == "-"
    requires WholePart(whole) && FractionPart(fraction) && ExponentPart(exponent)
    ensures ValidNumber(minus + whole + fraction + exponent)
  {
    hide ValidFraction;
    hide FractionPart;
    hide ExponentPart;
    TailValid(fraction, exponent);
    var tail := fraction + exponent;
    var s, t := minus + whole + fraction + exponent, whole + tail;
    assert s == minus + t;
    assert t[0] == whole[0] && IsDigit(t[0]);
    if whole == "0" {
      assert t[1..] == tail;
    } else {
      SkipOver(whole, tail);
    }
    assert (if s[0] == '-' then s[1..] else s) == t;
  }

  /** The numbers in a value are JSON numbers. */
  predicate WellFormed(v: Value) {
    match v
    case Null | Bool(_) | Str(_) => true
    case Number(text) => ValidNumber(text) && All(text, NumberCharacter)
    case Array(items) => forall i | 0 <= i < |items| :: WellFormed(items[i])
    case Object(members) => forall i | 0 <= i < |members| :: WellFormed(members[i].value)
  }

  // ---- Strings (section 7 of RFC 8259) -----------------------------------------------------------

  function LowerHex(d: nat): (c: char)
    requires d < 16
    ensures IsDigit(c) || 'a' <= c <= 'f'
  {
    if d < 10 then (d + '0' as int) as char else (d - 10 + 'a' as int) as char
  }

  function UnicodeEscape(code: nat): string
    requires code < 0x10000
  {
    ['\\', 'u', LowerHex(code / 4096), LowerHex(code / 256 % 16), LowerHex(code / 16 % 16), LowerHex(code % 16)]
  }

  /** Everything but printable ASCII is escaped; characters beyond the basic plane as a surrogate pair. */
  function EscapeChar(c: char): string {
    if c == '"' then "\\\""
    else if c == '\\' then "\\\\"
    else if c == '\n' then "\\n"
    else if c == '\r' then "\\r"
    else if c == '\t' then "\\t"
    else if c == '\U{C}' then "\\f"
    else if c == '\U{8}' then "\\b"
    else if ' ' <= c <= '~' then [c]
    else if c as int < 0x10000 then UnicodeEscape(c as int)
    else
      var n := c as int - 0x10000;
      UnicodeEscape(0xD800 + n / 1024) + UnicodeEscape(0xDC00 + n % 1024)
  }

  function Escape(s: string): string {
    if s == "" then "" else EscapeChar(s[0]) + Escape(s[1..])
  }

  function Quote(s: string): string { "\"" + Escape(s) + "\"" }

  // ---- json.dumps --------------------------------------------------------------------------------

  function Dumps(v: Value): string
    decreases v, 1
  {
    match v
    case Null => "null"
    case Bool(b) => if b then "true" else "false"
    case Number(text) => text
    case Str(s) => Quote(s)
    case Array(items) => "[" + DumpsItems(items) + "]"
    case Object(members) => "{" + DumpsMembers(members) + "}"
  }

  function DumpsItems(items: seq<Value>): string
    decreases items, 0
  {
    if items == [] then ""
    else if |items| == 1 then Dumps(items[0])
    else Dumps(items[0]) + ", " + DumpsItems(items[1..])
  }

  function DumpsMembers(members: seq<Member>): string
    decreases members, 0
  {
    if members == [] then ""
    else if |members| == 1 then Quote(members[0].key) + ": " + Dumps(members[0].value)
    else Quote(members[0].key) + ": " + Dumps(members[0].value) + ", " + DumpsMembers(members[1..])
  }

  // ---- JSON.parse --------------------------------------------------------------------------------

  function SkipSpace(s: string): (rest: string)
    ensures |rest| <= |s|
  {
    if s != "" && s[0] in " \t\n\r" then SkipSpace(s[1..]) else s
  }

  function HexValue(c: char): (d: nat)
    ensures d <= 16
  {
    if IsDigit(c) then c as int - '0' as int
    else if 'a' <= c <= 'f' then c as int - 'a' as int + 10
    else if 'A' <= c <= 'F' then c as int - 'A' as int + 10
    else 16
  }

  /** The digits of both cases, by their place in the two alphabets. */
  lemma HexIff(c: char, d: nat)
    requires d < 16
    ensures HexValue(c) == d <==> c == "0123456789abcdef"[d] || c == "0123456789ABCDEF"[d]
    ensures HexValue(c) == 16 <==> c !in "0123456789abcdef" && c !in "0123456789ABCDEF"
  {
    if HexValue(c) < 16 {
      assert "0123456789abcdef"[HexValue(c)] == c || "0123456789ABCDEF"[HexValue(c)] == c;
    }
  }

  /** The code unit of a leading backslash-u escape with four hexadecimal digits. */
  function CodeUnit(s: string): (code: Option<nat>)
    ensures code.Some? ==> |s| >= 6 && code.value < 0x10000
  {
    if |s| >= 6 && s[0] == '\\' && s[1] == 'u'
       && HexValue(s[2]) < 16 && HexValue(s[3]) < 16 && HexValue(s[4]) < 16 && HexValue(s[5]) < 16
    then Some(4096 * HexValue(s[2]) + 256 * HexValue(s[3]) + 16 * HexValue(s[4]) + HexValue(s[5])) else None
  }

  /** One escaped character: the character and the length of the escape. An unpaired surrogate is
      outside the strings of this model and counts as malformed. */
  function Unescape(s: string): (r: Option<(char, nat)>)
    requires s != ""
    ensures r.Some? ==> 2 <= r.value.1 <= |s|
  {
    if |s| < 2 then None
    else match s[1]
      case '"' => Some(('"', 2))
      case '\\' => Some(('\\', 2))
      case '/' => Some(('/', 2))
      case 'b' => Some(('\U{8}', 2))
      case 'f' => Some(('\U{C}', 2))
      case 'n' => Some(('\n', 2))
      case 'r' => Some(('\r', 2))
      case 't' => Some(('\t', 2))
      case _ =>
        var high := CodeUnit(s);
        if high.None? || 0xDC00 <= high.value < 0xE000 then None
        else if high.value < 0xD800 || high.value >= 0xE000 then Some((high.value as char, 6))
        else
          var low := CodeUnit(s[6..]);
          if low.None? || low.value < 0xDC00 || low.value >= 0xE000 then None
          else Some(((0x10000 + 1024 * (high.value - 0xD800) + (low.value - 0xDC00)) as char, 12))
  }

  /** The rest of a string literal after its opening quote. */
  function ParseString(s: string): (r: Option<(string, string)>)
    ensures r.Some? ==> |r.value.1| < |s|
    decreases |s|
  {
    if s == "" then None
    else if s[0] == '"' then Some(("", s[1..]))
    else if s[0] == '\\' then
      match Unescape(s)
      case None => None
      case Some((c, length)) =>
        (match ParseString(s[length..]) case None => None case Some((t, rest)) => Some(([c] + t, rest)))
    else if s[0] < ' ' then None
    else match ParseString(s[1..]) case None => None case Some((t, rest)) => Some(([s[0]] + t, rest))
  }

  /** The maximal run of characters that occur in numbers. */
  function NumberPrefix(s: string): (n: nat)
    ensures n <= |s|
  {
    if s != "" && NumberCharacter(s[0]) then 1 + NumberPrefix(s[1..]) else 0
  }

  function ParseWord(s: string, word: string, v: Value): Option<(Value, string)> {
    if word <= s then Some((v, s[|word|..])) else None
  }

  /** A value after optional white space, and the text behind it. */
  function ParseValue(text: string): (r: Option<(Value, string)>)
    ensures r.Some? ==> |r.value.1| < |text|
    decreases |text|, 1
  {
    var s := SkipSpace(text);
    if s == "" then None
    else match s[0]
      case 'n' => ParseWord(s, "null", Null)
      case 't' => ParseWord(s, "true", Bool(true))
      case 'f' => ParseWord(s, "false", Bool(false))
      case '"' => (match ParseString(s[1..]) case None => None case Some((t, rest)) => Some((Str(t), rest)))
      case '[' =>
        var t := SkipSpace(s[1..]);
        if t != "" && t[0] == ']' then Some((Array([]), t[1..]))
        else (match ParseItems(s[1..]) case None => None case Some((items, rest)) => Some((Array(items), rest)))
      case '{' =>
        var t := SkipSpace(s[1..]);
        if t != "" && t[0] == '}' then Some((Object([]), t[1..]))
        else (match ParseMembers(s[1..]) case None => None case Some((members, rest)) => Some((Object(members), rest)))
      case _ =>
        var n := NumberPrefix(s);
        if n > 0 && ValidNumber(s[..n]) then Some((Number(s[..n]), s[n..])) else None
  }

  /** One or more array items up to the closing bracket. */
  function ParseItems(text: string): (r: Option<(seq<Value>, string)>)
    ensures r.Some? ==> |r.value.1| < |text|
    decreases |text|, 2
  {
    match ParseValue(text)
    case None => None
    case Some((v, after)) =>
      var s := SkipSpace(after);
      if s == "" then None
      else if s[0] == ']' then Some(([v], s[1..]))
      else if s[0] == ',' then
        (match ParseItems(s[1..]) case None => None case Some((items, rest)) => Some(([v] + items, rest)))
      else None
  }

  /** One or more object members up to the closing brace. */
  function ParseMembers(text: string): (r: Option<(seq<Member>, string)>)
    ensures r.Some? ==> |r.value.1| < |text|
    decreases |text|, 2
  {
    var s := SkipSpace(text);
    if s == "" || s[0] != '"' then None
    else match ParseString(s[1..])
      case None => None
      case Some((key, afterKey)) =>
        var colon := SkipSpace(afterKey);
        if colon == "" || colon[0] != ':' then None
        else match ParseValue(colon[1..])
          case None => None
          case Some((v, after)) =>
            var t := SkipSpace(after);
            if t == "" then None
            else if t[0] == '}' then Some(([Member(key, v)], t[1..]))
            else if t[0] == ',' then
              (match ParseMembers(t[1..])
               case None => None
               case Some((members, rest)) => Some(([Member(key, v)] + members, rest)))
            else None
  }

  /** `JSON.parse`; `None` stands for the SyntaxError exception. */
  function Parse(text: string): Option<Value> {
    match ParseValue(text)
    case None => None
    case Some((v, rest)) => if SkipSpace(rest) == "" then Some(v) else None
  }

  // ---- Round trip --------------------------------------------------------------------------------

  lemma HexDigits(code: nat)
    requires code < 0x10000
    ensures 4096 * (code / 4096) + 256 * (code / 256 % 16) + 16 * (code / 16 % 16) + code % 16 == code
  {
    assert code / 16 == 16 * (code / 256) + code / 16 % 16;
    assert code / 256 == 16 * (code / 4096) + code / 256 % 16;
  }

  lemma LowerHexValue(d: nat)
    requires d < 16
    ensures HexValue(LowerHex(d)) == d
  {
  }

  lemma CodeUnitRoundTrip(code: nat, rest: string)
    requires code < 0x10000
    ensures CodeUnit(UnicodeEscape(code) + rest) == Some(code)
  {
    HexDigits(code);
    LowerHexValue(code / 4096);
    LowerHexValue(code / 256 % 16);
    LowerHexValue(code / 16 % 16);
    LowerHexValue(code % 16);
  }

  lemma UnescapeBasic(c: char, rest: string)
    requires c as int < 0x10000
    ensures Unescape(UnicodeEscape(c as int) + rest) == Some((c, 6))
  {
    CodeUnitRoundTrip(c as int, rest);
  }

  lemma EscapeShape(code: nat)
    requires code < 0x10000
    ensures |UnicodeEscape(code)| == 6 && UnicodeEscape(code)[1] == 'u'
  {
  }

  lemma UnescapePair(high: nat, low: nat, rest: string)
    requires high < 1024 && low < 1024
    ensures Unescape(UnicodeEscape(0xD800 + high) + UnicodeEscape(0xDC00 + low) + rest)
         == Some(((0x10000 + 1024 * high + low) as char, 12))
  {
    hide CodeUnit;
    EscapeShape(0xD800 + high);
    EscapeShape(0xDC00 + low);
    hide UnicodeEscape;
    var tail := UnicodeEscape(0xDC00 + low) + rest;
    var text := UnicodeEscape(0xD800 + high) + tail;
    Reassociate(UnicodeEscape(0xD800 + high), UnicodeEscape(0xDC00 + low), rest);
    assert text[6..] == tail;
    CodeUnitRoundTrip(0xD800 + high, tail);
    CodeUnitRoundTrip(0xDC00 + low, rest);
    assert text[1] == 'u';
  }

  lemma EscapePair(c: char)
    requires c as int >= 0x10000
    ensures var m := c as int - 0x10000;
            && EscapeChar(c) == UnicodeEscape(0xD800 + m / 1024) + UnicodeEscape(0xDC00 + m % 1024)
            && m / 1024 < 1024 && 1024 * (m / 1024) + m % 1024 == m
  {
  }

  lemma UnescapeEscaped(c: char, rest: string)
    requires EscapeChar(c) != [c]
    ensures EscapeChar(c)[0] == '\\' && Unescape(EscapeChar(c) + rest) == Some((c, |EscapeChar(c)|))
  {
    hide CodeUnit;
    hide LowerHex;
    if c as int >= 0x10000 {
      var m := c as int - 0x10000;
      EscapePair(c);
      UnescapePair(m / 1024, m % 1024, rest);
    } else if EscapeChar(c) == UnicodeEscape(c as int) {
      UnescapeBasic(c, rest);
    }
  }

  lemma UnescapedChar(c: char)
    requires EscapeChar(c) == [c]
    ensures c != '"' && c != '\\' && c >= ' '
  {
  }

  /** An escaped character parses back to itself in front of any text. */
  lemma ParseEscapedChar(c: char, rest: string)
    requires ParseString(rest).Some?
    ensures var (t, after) := ParseString(rest).value;
            ParseString(EscapeChar(c) + rest) == Some(([c] + t, after))
  {
    hide EscapeChar;
    hide Unescape;
    var text := EscapeChar(c) + rest;
    assert text[|EscapeChar(c)|..] == rest;
    if EscapeChar(c) != [c] {
      UnescapeEscaped(c, rest);
    } else {
      UnescapedChar(c);
    }
  }

  lemma {:induction false} ParseEscaped(s: string, rest: string)
    ensures ParseString(Escape(s) + "\"" + rest) == Some((s, rest))
  {
    if s == "" {
      assert "" + "\"" + rest == "\"" + rest;
      assert ("\"" + rest)[1..] == rest;
    } else {
      ParseEscaped(s[1..], rest);
      ParseEscapedChar(s[0], Escape(s[1..]) + "\"" + rest);
      assert Escape(s) + "\"" + rest == EscapeChar(s[0]) + (Escape(s[1..]) + "\"" + rest);
      assert [s[0]] + s[1..] == s;
    }
  }

  lemma {:induction false} NumberPrefixAll(text: string, rest: string)
    requires All(text, NumberCharacter) && (rest == "" || !NumberCharacter(rest[0]))
    ensures NumberPrefix(text + rest) == |text|
  {
    if text == "" {
      assert text + rest == rest;
    } else {
      assert text[0] in text;
      assert (text + rest)[1..] == text[1..] + rest;
      NumberPrefixAll(text[1..], rest);
    }
  }

  /** What may stand behind a value: nothing that continues a number. */
  predicate Closed(rest: string) { rest == "" || !NumberCharacter(rest[0]) }

  lemma NumberStart(text: string)
    requires ValidNumber(text)
    ensures text != "" && (text[0] == '-' || IsDigit(text[0]))
  {
  }

  lemma ParseNumber(text: string, rest: string)
    requires ValidNumber(text) && All(text, NumberCharacter) && Closed(rest)
    ensures ParseValue(text + rest) == Some((Number(text), rest))
  {
    NumberStart(text);
    NumberPrefixAll(text, rest);
    var s := text + rest;
    assert s[0] == text[0];
    assert SkipSpace(s) == s;
    assert s[..|text|] == text && s[|text|..] == rest;
  }

  /** A text of characters that occur in numbers is parsed exactly when it is a number, whole. */
  lemma NumberParses(text: string)
    requires text != "" && All(text, NumberCharacter)
    ensures Parse(text) == if ValidNumber(text) then Some(Number(text)) else None
  {
    hide ValidNumber;
    NumberPrefixAll(text, "");
    assert text + "" == text;
    assert text[0] in text && NumberCharacter(text[0]);
    assert SkipSpace(text) == text && text[..|text|] == text;
  }

  lemma ParseQuoted(s: string, rest: string)
    ensures ParseValue(Quote(s) + rest) == Some((Str(s), rest))
  {
    var text := Quote(s) + rest;
    assert text[1..] == Escape(s) + "\"" + rest;
    ParseEscaped(s, rest);
    assert SkipSpace(text) == text;
  }

  /** Every printed value starts with a character that opens a value, never with white space or a
      closing bracket. */
  lemma DumpsStart(v: Value, rest: string)
    requires WellFormed(v)
    ensures Dumps(v) != "" && SkipSpace(Dumps(v) + rest) == Dumps(v) + rest
    ensures (Dumps(v) + rest)[0] != ']' && (Dumps(v) + rest)[0] != '}'
  {
    if v.Number? {
      NumberStart(v.text);
    }
  }

  lemma SkipOneSpace(rest: string)
    ensures ParseValue(" " + rest) == ParseValue(rest)
  {
    assert (" " + rest)[1..] == rest;
  }

  /** An opening bracket leaves what it opens. */
  lemma Opened(c: char, body: string)
    requires c !in " \t\n\r"
    ensures SkipSpace([c] + body) == [c] + body && ([c] + body)[0] == c && ([c] + body)[1..] == body
  {
  }

  lemma ArrayText(body: string, items: seq<Value>, rest: string)
    requires SkipSpace(body) == body && body != "" && body[0] != ']' && ParseItems(body) == Some((items, rest))
    ensures ParseValue("[" + body) == Some((Array(items), rest))
  {
    hide ParseItems;
    hide ParseMembers;
    hide ParseString;
    hide ParseWord;
    hide NumberPrefix;
    hide SkipSpace;
    Opened('[', body);
    assert "[" + body == ['['] + body;
  }

  lemma ObjectText(body: string, members: seq<Member>, rest: string)
    requires SkipSpace(body) == body && body != "" && body[0] != '}' && ParseMembers(body) == Some((members, rest))
    ensures ParseValue("{" + body) == Some((Object(members), rest))
  {
    hide ParseItems;
    hide ParseMembers;
    hide ParseString;
    hide ParseWord;
    hide NumberPrefix;
    hide SkipSpace;
    Opened('{', body);
    assert "{" + body == ['{'] + body;
  }

  lemma EmptyText(rest: string)
    ensures ParseValue("[]" + rest) == Some((Array([]), rest)) && ParseValue("{}" + rest) == Some((Object([]), rest))
  {
    assert ("[]" + rest)[1..] == "]" + rest && ("]" + rest)[1..] == rest;
    assert ("{}" + rest)[1..] == "}" + rest && ("}" + rest)[1..] == rest;
  }

  lemma WordText(v: Value, rest: string)
    requires v.Null? || v.Bool?
    ensures ParseValue(Dumps(v) + rest) == Some((v, rest))
  {
    var text := Dumps(v) + rest;
    assert text[|Dumps(v)|..] == rest;
    assert SkipSpace(text) == text;
  }

  lemma LastItem(text: string, v: Value, rest: string)
    requires ParseValue(text) == Some((v, "]" + rest))
    ensures ParseItems(text) == Some(([v], rest))
  {
    hide ParseValue;
    assert ("]" + rest)[1..] == rest;
  }

  lemma MoreItems(text: string, v: Value, tail: string, items: seq<Value>, rest: string)
    requires ParseValue(text) == Some((v, ", " + tail)) && ParseItems(tail) == Some((items, rest))
    ensures ParseItems(text) == Some(([v] + items, rest))
  {
    assert ParseItems(" " + tail) == ParseItems(tail) by {
      SkipOneSpace(tail);
    }
    hide ParseValue;
    assert (", " + tail)[1..] == " " + tail;
  }

  lemma LastMember(text: string, key: string, v: Value, body: string, rest: string)
    requires SkipSpace(text) == text && text != "" && text[0] == '"'
             && ParseString(text[1..]) == Some((key, ": " + body))
    requires ParseValue(body) == Some((v, "}" + rest))
    ensures ParseMembers(text) == Some(([Member(key, v)], rest))
  {
    SkipOneSpace(body);
    hide ParseValue;
    hide ParseString;
    assert (": " + body)[1..] == " " + body;
    assert ("}" + rest)[1..] == rest;
  }

  /** What a separator leaves to parse. */
  lemma Separated(c: char, text: string)
    requires c !in " \t\n\r"
    ensures var all := [c] + " " + text; SkipSpace(all) == all && all != "" && all[0] == c && all[1..] == " " + text
  {
    assert ([c] + " " + text)[1..] == " " + text;
  }

  lemma MoreMembers(text: string, key: string, v: Value, body: string, tail: string, members: seq<Member>, rest: string)
    requires SkipSpace(text) == text && text != "" && text[0] == '"'
             && ParseString(text[1..]) == Some((key, ": " + body))
    requires ParseValue(body) == Some((v, ", " + tail)) && ParseMembers(tail) == Some((members, rest))
    ensures ParseMembers(text) == Some(([Member(key, v)] + members, rest))
  {
    hide ParseValue;
    hide ParseString;
    hide SkipSpace;
    SkipOneSpace(body);
    SkipMembersSpace(tail);
    Separated(':', body);
    Separated(',', tail);
    assert ": " + body == [':'] + " " + body && ", " + tail == [','] + " " + tail;
  }

  lemma SkipMembersSpace(rest: string)
    ensures ParseMembers(" " + rest) == ParseMembers(rest)
  {
    assert (" " + rest)[1..] == rest;
  }

  /** The key and colon of a printed member parse back in front of its value. */
  lemma MemberText(m: Member, rest: string)
    ensures var text := Quote(m.key) + ": " + Dumps(m.value) + rest;
            && SkipSpace(text) == text && text != "" && text[0] == '"'
            && ParseString(text[1..]) == Some((m.key, ": " + (Dumps(m.value) + rest)))
  {
    hide Dumps;
    hide ParseString;
    var after := ": " + (Dumps(m.value) + rest);
    var text := Quote(m.key) + ": " + Dumps(m.value) + rest;
    assert text[1..] == Escape(m.key) + "\"" + after;
    ParseEscaped(m.key, after);
  }

  lemma ItemsStart(items: seq<Value>, rest: string)
    requires items != [] && WellFormed(items[0])
    ensures var text := DumpsItems(items) + rest; SkipSpace(text) == text && text != "" && text[0] != ']'
  {
    hide SkipSpace;
    hide Dumps;
    hide WellFormed;
    var first := Dumps(items[0]);
    var tail := (if |items| == 1 then "" else ", " + DumpsItems(items[1..])) + rest;
    DumpsStart(items[0], tail);
    assert DumpsItems(items) + rest == first + tail;
  }

  lemma MembersStart(members: seq<Member>, rest: string)
    requires members != []
    ensures var text := DumpsMembers(members) + rest; SkipSpace(text) == text && text != "" && text[0] == '"'
  {
  }

  lemma ArrayParses(items: seq<Value>, rest: string)
    requires items != []
    requires var body := DumpsItems(items) + ("]" + rest);
             SkipSpace(body) == body && body != "" && body[0] != ']' && ParseItems(body) == Some((items, rest))
    ensures ParseValue(Dumps(Array(items)) + rest) == Some((Array(items), rest))
  {
    hide ParseValue;
    hide ParseItems;
    hide SkipSpace;
    hide DumpsItems;
    var body := DumpsItems(items) + ("]" + rest);
    ArrayText(body, items, rest);
    assert Dumps(Array(items)) + rest == "[" + body;
  }

  lemma ObjectParses(members: seq<Member>, rest: string)
    requires members != []
    requires var body := DumpsMembers(members) + ("}" + rest);
             SkipSpace(body) == body && body != "" && body[0] != '}' && ParseMembers(body) == Some((members, rest))
    ensures ParseValue(Dumps(Object(members)) + rest) == Some((Object(members), rest))
  {
    hide ParseValue;
    hide ParseMembers;
    hide SkipSpace;
    hide DumpsMembers;
    var body := DumpsMembers(members) + ("}" + rest);
    ObjectText(body, members, rest);
    assert Dumps(Object(members)) + rest == "{" + body;
  }

  lemma {:induction false} ParseDumped(v: Value, rest: string)
    requires WellFormed(v) && Closed(rest)
    ensures ParseValue(Dumps(v) + rest) == Some((v, rest))
    decreases v, 1
  {
    hide ParseValue;
    hide ParseItems;
    hide ParseMembers;
    hide SkipSpace;
    match v
    case Null | Bool(_) => WordText(v, rest);
    case Number(number) => ParseNumber(number, rest);
    case Str(s) => ParseQuoted(s, rest);
    case Array(items) =>
      if items == [] {
        EmptyText(rest);
        assert Dumps(v) == "[]";
      } else {
        ItemsStart(items, "]" + rest);
        ParseDumpedItems(items, rest);
        ArrayParses(items, rest);
      }
    case Object(members) =>
      if members == [] {
        EmptyText(rest);
        assert Dumps(v) == "{}";
      } else {
        MembersStart(members, "}" + rest);
        ParseDumpedMembers(members, rest);
        ObjectParses(members, rest);
      }
  }

  lemma {:induction false} ParseDumpedItems(items: seq<Value>, rest: string)
    requires items != [] && forall i | 0 <= i < |items| :: WellFormed(items[i])
    ensures ParseItems(DumpsItems(items) + ("]" + rest)) == Some((items, rest))
    decreases items, 0
  {
    hide ParseValue;
    hide ParseItems;
    hide Dumps;
    hide WellFormed;
    if |items| == 1 {
      ParseDumped(items[0], "]" + rest);
      LastItem(Dumps(items[0]) + ("]" + rest), items[0], rest);
      assert items == [items[0]];
    } else {
      var tail := DumpsItems(items[1..]) + ("]" + rest);
      var text := Dumps(items[0]) + (", " + tail);
      ParseDumpedItems(items[1..], rest);
      ParseDumped(items[0], ", " + tail);
      MoreItems(text, items[0], tail, items[1..], rest);
      assert DumpsItems(items) + ("]" + rest) == text;
      assert [items[0]] + items[1..] == items;
    }
  }

  lemma MembersText(members: seq<Member>, rest: string)
    requires |members| > 1
    ensures var m := members[0];
            DumpsMembers(members) + rest
            == Quote(m.key) + ": " + Dumps(m.value) + (", " + (DumpsMembers(members[1..]) + rest))
  {
    hide Dumps;
    hide Quote;
  }

  lemma {:induction false} ParseDumpedMembers(members: seq<Member>, rest: string)
    requires members != [] && forall i | 0 <= i < |members| :: WellFormed(members[i].value)
    ensures ParseMembers(DumpsMembers(members) + ("}" + rest)) == Some((members, rest))
    decreases members, 0
  {
    hide ParseValue;
    hide ParseMembers;
    hide ParseString;
    hide SkipSpace;
    hide Dumps;
    hide Quote;
    hide WellFormed;
    var m := members[0];
    if |members| == 1 {
      var text := Quote(m.key) + ": " + Dumps(m.value) + ("}" + rest);
      ParseDumped(m.value, "}" + rest);
      MemberText(m, "}" + rest);
      LastMember(text, m.key, m.value, Dumps(m.value) + ("}" + rest), rest);
      assert members == [Member(m.key, m.value)];
      assert DumpsMembers(members) + ("}" + rest) == text;
    } else {
      var tail := DumpsMembers(members[1..]) + ("}" + rest);
      var text := Quote(m.key) + ": " + Dumps(m.value) + (", " + tail);
      ParseDumpedMembers(members[1..], rest);
      ParseDumped(m.value, ", " + tail);
      MemberText(m, ", " + tail);
      MoreMembers(text, m.key, m.value, Dumps(m.value) + (", " + tail), tail, members[1..], rest);
      MembersText(members, "}" + rest);
      assert [Member(m.key, m.value)] + members[1..] == members;
    }
  }

  /** Parsing what was printed gives the value back. */
  lemma RoundTrip(v: Value)
    requires WellFormed(v)
    ensures Parse(Dumps(v)) == Some(v)
  {
    ParseDumped(v, "");
    assert Dumps(v) + "" == Dumps(v);
  }

  // ---- Printed text is one line of ASCII ----------------------------------------------------------

  predicate Printable(c: char) { ' ' <= c <= '~' }

  lemma {:induction false} EscapePrintable(s: string)
    ensures All(Escape(s), Printable)
  {
    if s != "" {
      EscapePrintable(s[1..]);
      assert All(EscapeChar(s[0]), Printable);
    }
  }

  lemma {:induction false} DumpsPrintable(v: Value)
    requires WellFormed(v)
    ensures All(Dumps(v), Printable)
    decreases v, 1
  {
    match v
    case Null | Bool(_) | Number(_) =>
    case Str(s) => EscapePrintable(s);
    case Array(items) => DumpsItemsPrintable(items);
    case Object(members) => DumpsMembersPrintable(members);
  }

  lemma {:induction false} DumpsItemsPrintable(items: seq<Value>)
    requires forall i | 0 <= i < |items| :: WellFormed(items[i])
    ensures All(DumpsItems(items), Printable)
    decreases items, 0
  {
    if items != [] {
      DumpsPrintable(items[0]);
      DumpsItemsPrintable(items[1..]);
    }
  }

  lemma {:induction false} DumpsMembersPrintable(members: seq<Member>)
    requires forall i | 0 <= i < |members| :: WellFormed(members[i].value)
    ensures All(DumpsMembers(members), Printable)
    decreases members, 0
  {
    if members != [] {
      EscapePrintable(members[0].key);
      DumpsPrintable(members[0].value);
      DumpsMembersPrintable(members[1..]);
    }
  }
}
