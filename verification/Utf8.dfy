/** The UTF-8 encoder and the error-replacing UTF-8 decoder of the WHATWG Encoding Standard
    (section 8.1), which `URLSearchParams` applies to every name and value.

    The decoder keeps incomplete trailing bytes for the next chunk when it runs as a stream,
    as `TextDecoder` does. Code points are Unicode scalar values. */
module Utf8 {
  import opened Text

  type Byte = b: int | 0 <= b < 256

  const REPLACEMENT: char := '\U{FFFD}'

  function EncodeChar(c: char): (bytes: seq<Byte>)
    ensures 1 <= |bytes| <= 4
  {
    var n := c as int;
    if n < 0x80 then [n]
    else if n < 0x800 then [0xC0 + n / 64, 0x80 + n % 64]
    else if n < 0x10000 then [0xE0 + n / 4096, 0x80 + n / 64 % 64, 0x80 + n % 64]
    else [0xF0 + n / 262144, 0x80 + n / 4096 % 64, 0x80 + n / 64 % 64, 0x80 + n % 64]
  }

  function Encode(s: string): seq<Byte> {
    if s == "" then [] else EncodeChar(s[0]) + Encode(s[1..])
  }

  /** What a lead byte announces: the bits it carries, how many continuation bytes follow and the
      bounds of the first of them. */
  datatype Lead = Lead(bits: nat, needed: nat, lower: int, upper: int) | NoLead

  function LeadOf(b: Byte): Lead {
    if b < 0x80 then Lead(b, 0, 0x80, 0xBF)
    else if 0xC2 <= b <= 0xDF then Lead(b - 0xC0, 1, 0x80, 0xBF)
    else if 0xE0 <= b <= 0xEF then
      Lead(b - 0xE0, 2, if b == 0xE0 then 0xA0 else 0x80, if b == 0xED then 0x9F else 0xBF)
    else if 0xF0 <= b <= 0xF4 then
      Lead(b - 0xF0, 3, if b == 0xF0 then 0x90 else 0x80, if b == 0xF4 then 0x8F else 0xBF)
    else NoLead
  }

  function Scalar(code: nat): char {
    if code < 0xD800 || 0xE000 <= code < 0x110000 then code as char else REPLACEMENT
  }

  /** Reads `needed` continuation bytes; an unexpected byte is left unread and yields the
      replacement character. Returns the character and the number of bytes read. */
  function Continue(code: nat, needed: nat, lower: int, upper: int, bytes: seq<Byte>): (r: (char, nat))
    ensures r.1 <= |bytes|
    ensures forall k | 0 <= k < r.1 :: (if k == 0 then lower <= bytes[0] <= upper else 0x80 <= bytes[k] <= 0xBF)
    decreases needed
  {
    if needed == 0 then (Scalar(code), 0)
    else if bytes == [] || !(lower <= bytes[0] <= upper) then (REPLACEMENT, 0)
    else
      var (c, read) := Continue(64 * code + if bytes[0] >= 0x80 then bytes[0] - 0x80 else 0, needed - 1, 0x80, 0xBF,
                                bytes[1..]);
      (c, read + 1)
  }

  function DecodeOne(bytes: seq<Byte>): (r: (char, nat))
    requires bytes != []
    ensures 1 <= r.1 <= |bytes|
    ensures forall k | 1 <= k < r.1 :: 0x80 <= bytes[k] <= 0xBF
  {
    match LeadOf(bytes[0])
    case NoLead => (REPLACEMENT, 1)
    case Lead(bits, needed, lower, upper) =>
      var (c, read) := Continue(bits, needed, lower, upper, bytes[1..]);
      (c, read + 1)
  }

  function Decode(bytes: seq<Byte>): string
    decreases |bytes|
  {
    if bytes == [] then ""
    else
      var (c, read) := DecodeOne(bytes);
      [c] + Decode(bytes[read..])
  }

  lemma ContinueStep(code: nat, needed: nat, lower: int, upper: int, b: Byte, rest: seq<Byte>)
    requires needed >= 1 && lower <= b <= upper && 0x80 <= b
    ensures var (c, read) := Continue(64 * code + (b - 0x80), needed - 1, 0x80, 0xBF, rest);
            Continue(code, needed, lower, upper, [b] + rest) == (c, read + 1)
  {
    assert ([b] + rest)[1..] == rest;
  }

  lemma DecodeOneStep(b: Byte, rest: seq<Byte>)
    requires LeadOf(b).Lead?
    ensures var lead := LeadOf(b);
            var (c, read) := Continue(lead.bits, lead.needed, lead.lower, lead.upper, rest);
            DecodeOne([b] + rest) == (c, read + 1)
  {
    assert ([b] + rest)[1..] == rest;
  }

  lemma TwoBytes(a: nat, b: nat, rest: seq<Byte>)
    requires 2 <= a < 32 && b < 64
    ensures DecodeOne([0xC0 + a, 0x80 + b] + rest) == ((64 * a + b) as char, 2)
  {
    hide Continue;
    hide DecodeOne;
    DecodeOneStep(0xC0 + a, [0x80 + b] + rest);
    OneContinuation(a, b, rest);
    assert [0xC0 + a, 0x80 + b] + rest == [0xC0 + a] + ([0x80 + b] + rest);
  }

  lemma OneContinuation(code: nat, c: nat, rest: seq<Byte>)
    requires c < 64
    ensures Continue(code, 1, 0x80, 0xBF, [0x80 + c] + rest) == (Scalar(64 * code + c), 1)
  {
    ContinueStep(code, 1, 0x80, 0xBF, 0x80 + c, rest);
  }

  lemma ThreeBytes(a: nat, b: nat, c: nat, rest: seq<Byte>)
    requires a < 16 && b < 64 && c < 64
    requires var n := 4096 * a + 64 * b + c; 0x800 <= n < 0xD800 || 0xE000 <= n < 0x10000
    ensures DecodeOne([0xE0 + a, 0x80 + b, 0x80 + c] + rest) == ((4096 * a + 64 * b + c) as char, 3)
  {
    hide Continue;
    hide DecodeOne;
    var lead := LeadOf(0xE0 + a);
    var last := [0x80 + c] + rest;
    DecodeOneStep(0xE0 + a, [0x80 + b] + last);
    ContinueStep(a, 2, lead.lower, lead.upper, 0x80 + b, last);
    OneContinuation(64 * a + b, c, rest);
    assert [0xE0 + a, 0x80 + b, 0x80 + c] + rest == [0xE0 + a] + ([0x80 + b] + last);
  }

  lemma TwoContinuations(code: nat, c: nat, d: nat, rest: seq<Byte>)
    requires c < 64 && d < 64
    ensures Continue(code, 2, 0x80, 0xBF, [0x80 + c] + ([0x80 + d] + rest)) == (Scalar(64 * (64 * code + c) + d), 2)
  {
    hide Continue;
    ContinueStep(code, 2, 0x80, 0xBF, 0x80 + c, [0x80 + d] + rest);
    OneContinuation(64 * code + c, d, rest);
  }

  lemma FourBytes(a: nat, b: nat, c: nat, d: nat, rest: seq<Byte>)
    requires a < 8 && b < 64 && c < 64 && d < 64
    requires 0x10000 <= 262144 * a + 4096 * b + 64 * c + d < 0x110000
    ensures DecodeOne([0xF0 + a, 0x80 + b, 0x80 + c, 0x80 + d] + rest)
            == ((262144 * a + 4096 * b + 64 * c + d) as char, 4)
  {
    hide Continue;
    hide DecodeOne;
    var lead := LeadOf(0xF0 + a);
    var middle := [0x80 + c] + ([0x80 + d] + rest);
    TwoContinuations(64 * a + b, c, d, rest);
    ContinueStep(a, 3, lead.lower, lead.upper, 0x80 + b, middle);
    DecodeOneStep(0xF0 + a, [0x80 + b] + middle);
    assert [0xF0 + a, 0x80 + b, 0x80 + c, 0x80 + d] + rest == [0xF0 + a] + ([0x80 + b] + middle);
  }

  lemma Base64Digits(n: nat)
    ensures n == 64 * (n / 64) + n % 64
    ensures n / 64 == 64 * (n / 4096) + n / 64 % 64
    ensures n / 4096 == 64 * (n / 262144) + n / 4096 % 64
  {
    assert n / 64 / 64 == n / 4096;
    assert n / 4096 / 64 == n / 262144;
  }

  lemma DecodeOneShort(c: char, rest: seq<Byte>)
    requires c as int < 0x800
    ensures DecodeOne(EncodeChar(c) + rest) == (c, |EncodeChar(c)|)
  {
    var n := c as int;
    Base64Digits(n);
    if n < 0x80 {
      DecodeOneStep(n, rest);
    } else {
      TwoBytes(n / 64, n % 64, rest);
    }
  }

  lemma DecodeOneThree(c: char, rest: seq<Byte>)
    requires 0x800 <= c as int < 0x10000
    ensures DecodeOne(EncodeChar(c) + rest) == (c, 3)
  {
    var n := c as int;
    Base64Digits(n);
    var x, y, z := n / 4096, n / 64 % 64, n % 64;
    assert n == 4096 * x + 64 * y + z;
    ThreeBytes(x, y, z, rest);
  }

  lemma DecodeOneFour(c: char, rest: seq<Byte>)
    requires 0x10000 <= c as int
    ensures DecodeOne(EncodeChar(c) + rest) == (c, 4)
  {
    var n := c as int;
    Base64Digits(n);
    var w, x, y, z := n / 262144, n / 4096 % 64, n / 64 % 64, n % 64;
    assert n == 262144 * w + 4096 * x + 64 * y + z;
    FourBytes(w, x, y, z, rest);
  }

  lemma DecodeOneEncoded(c: char, rest: seq<Byte>)
    ensures DecodeOne(EncodeChar(c) + rest) == (c, |EncodeChar(c)|)
  {
    if c as int < 0x800 {
      DecodeOneShort(c, rest);
    } else if c as int < 0x10000 {
      DecodeOneThree(c, rest);
    } else {
      DecodeOneFour(c, rest);
    }
  }

  /** An encoded character resynchronizes the decoder, whatever follows it. */
  lemma DecodeEncodedChar(c: char, rest: seq<Byte>)
    ensures Decode(EncodeChar(c) + rest) == [c] + Decode(rest)
  {
    DecodeOneEncoded(c, rest);
    assert (EncodeChar(c) + rest)[|EncodeChar(c)|..] == rest;
  }

  lemma {:induction false} RoundTrip(s: string)
    ensures Decode(Encode(s)) == s
  {
    if s != "" {
      DecodeEncodedChar(s[0], Encode(s[1..]));
      RoundTrip(s[1..]);
    }
  }

  /** Skipping stray continuation bytes never lengthens the decoded text. */
  lemma {:induction false} SkipContinuation(bytes: seq<Byte>, k: nat)
    requires k <= |bytes|
    requires forall i | 0 <= i < k :: 0x80 <= bytes[i] <= 0xBF
    ensures |Decode(bytes[k..])| <= |Decode(bytes)|
    decreases k
  {
    if k > 0 {
      assert DecodeOne(bytes) == (REPLACEMENT, 1);
      SkipContinuation(bytes[1..], k - 1);
      assert bytes[1..][k - 1..] == bytes[k..];
    } else {
      assert bytes[k..] == bytes;
    }
  }

  /** One more byte in front decodes to at most one more character. */
  lemma DecodePrepend(b: Byte, bytes: seq<Byte>)
    ensures |Decode([b] + bytes)| <= 1 + |Decode(bytes)|
  {
    hide DecodeOne;
    var (c, read) := DecodeOne([b] + bytes);
    assert ([b] + bytes)[read..] == bytes[read - 1..];
    forall i | 0 <= i < read - 1 ensures 0x80 <= bytes[i] <= 0xBF {
      assert ([b] + bytes)[i + 1] == bytes[i];
    }
    SkipContinuation(bytes, read - 1);
  }

  // ---- The streaming decoder ---------------------------------------------------------------------

  /** The bytes end before `needed` acceptable continuation bytes are read. */
  predicate RunsOut(needed: nat, lower: int, upper: int, bytes: seq<Byte>)
    decreases needed
  {
    needed > 0 && (bytes == [] || (lower <= bytes[0] <= upper && RunsOut(needed - 1, 0x80, 0xBF, bytes[1..])))
  }

  /** A sequence that further bytes may complete, which a streaming decoder keeps for later. */
  predicate Pending(bytes: seq<Byte>)
    requires bytes != []
  {
    var lead := LeadOf(bytes[0]);
    lead.Lead? && RunsOut(lead.needed, lead.lower, lead.upper, bytes[1..])
  }

  /** The text decoded from a chunk and the bytes kept back for the next one. */
  function StreamDecode(bytes: seq<Byte>): (r: (string, seq<Byte>))
    decreases |bytes|
  {
    if bytes == [] then ("", [])
    else if Pending(bytes) then ("", bytes)
    else
      var (c, read) := DecodeOne(bytes);
      var (text, pending) := StreamDecode(bytes[read..]);
      ([c] + text, pending)
  }

  lemma {:induction false} ContinueStable(code: nat, needed: nat, lower: int, upper: int, a: seq<Byte>, b: seq<Byte>)
    requires !RunsOut(needed, lower, upper, a)
    ensures Continue(code, needed, lower, upper, a + b) == Continue(code, needed, lower, upper, a)
    ensures !RunsOut(needed, lower, upper, a + b)
    decreases needed
  {
    if needed > 0 && a != [] && lower <= a[0] <= upper {
      assert (a + b)[1..] == a[1..] + b;
      ContinueStable(64 * code + if a[0] >= 0x80 then a[0] - 0x80 else 0, needed - 1, 0x80, 0xBF, a[1..], b);
    }
  }

  lemma DecodeOneStable(a: seq<Byte>, b: seq<Byte>)
    requires a != [] && !Pending(a)
    ensures DecodeOne(a + b) == DecodeOne(a) && !Pending(a + b)
  {
    assert (a + b)[1..] == a[1..] + b;
    var lead := LeadOf(a[0]);
    if lead.Lead? {
      ContinueStable(lead.bits, lead.needed, lead.lower, lead.upper, a[1..], b);
    }
  }

  /** Decoding in two chunks is decoding at once, wherever the bytes are split. */
  lemma {:induction false} StreamConcat(a: seq<Byte>, b: seq<Byte>)
    ensures var (text, pending) := StreamDecode(a);
            var (more, rest) := StreamDecode(pending + b);
            StreamDecode(a + b) == (text + more, rest)
    decreases |a|
  {
    if a == [] {
      assert a + b == b;
    } else if Pending(a) {
      assert "" + StreamDecode(a + b).0 == StreamDecode(a + b).0;
    } else {
      DecodeOneStable(a, b);
      var read := DecodeOne(a).1;
      assert (a + b)[read..] == a[read..] + b;
      StreamConcat(a[read..], b);
      var (text, pending) := StreamDecode(a[read..]);
      var more := StreamDecode(pending + b).0;
      assert [DecodeOne(a).0] + (text + more) == [DecodeOne(a).0] + text + more;
    }
  }

  lemma {:induction false} RunsOutShort(needed: nat, lower: int, upper: int, bytes: seq<Byte>)
    requires RunsOut(needed, lower, upper, bytes)
    ensures |bytes| < needed
    decreases needed
  {
    if bytes != [] {
      RunsOutShort(needed - 1, 0x80, 0xBF, bytes[1..]);
    }
  }

  lemma LeadNeeded(c: char)
    ensures LeadOf(EncodeChar(c)[0]).Lead? && LeadOf(EncodeChar(c)[0]).needed == |EncodeChar(c)| - 1
  {
  }

  /** A complete encoding is decoded completely. */
  lemma {:induction false} StreamRoundTrip(s: string)
    ensures StreamDecode(Encode(s)) == (s, [])
  {
    if s != "" {
      var head, tail := EncodeChar(s[0]), Encode(s[1..]);
      var bytes := head + tail;
      LeadNeeded(s[0]);
      if Pending(bytes) {
        var lead := LeadOf(bytes[0]);
        RunsOutShort(lead.needed, lead.lower, lead.upper, bytes[1..]);
      }
      DecodeOneEncoded(s[0], tail);
      assert bytes[|head|..] == tail;
      StreamRoundTrip(s[1..]);
      assert [s[0]] + s[1..] == s;
    }
  }
}
