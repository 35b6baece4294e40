/** UTF-8 and base64url, with the decoders the gateway relies on when a rewritten link is clicked. */
module Encodings {
  import opened Text

  type Byte = b: int | 0 <= b < 256

  // ---------- UTF-8 ----------

  function Utf8Char(c: char): (r: seq<Byte>)
    ensures 1 <= |r| <= 4
  {
    var n := c as int;
    if n < 0x80 then [n]
    else if n < 0x800 then [0xC0 + n / 64, 0x80 + n % 64]
    else if n < 0x10000 then [0xE0 + n / 64 / 64, 0x80 + n / 64 % 64, 0x80 + n % 64]
    else [0xF0 + n / 64 / 64 / 64, 0x80 + n / 64 / 64 % 64, 0x80 + n / 64 % 64, 0x80 + n % 64]
  }

  function Utf8Encode(s: string): seq<Byte> {
    if s == "" then [] else Utf8Char(s[0]) + Utf8Encode(s[1..])
  }

  predicate Continues(b: Byte) {
    0x80 <= b < 0xC0
  }

  predicate IsScalar(n: int) {
    0 <= n < 0xD800 || 0xE000 <= n < 0x110000
  }

  function Scalar(n: int, least: int, length: nat): (r: Option<(char, nat)>)
    ensures r.Some? ==> r.value.1 == length
  {
    if n >= least && IsScalar(n) then Some((n as char, length)) else None
  }

  /** The code point at the front of b and its length; overlong forms and surrogates are refused. */
  function Utf8First(b: seq<Byte>): (r: Option<(char, nat)>)
    requires b != []
    ensures r.Some? ==> 1 <= r.value.1 <= |b|
  {
    var b0: int := b[0];
    if b0 < 0x80 then Scalar(b0, 0, 1)
    else if 0xC0 <= b0 < 0xE0 && |b| >= 2 && Continues(b[1]) then Scalar(SixMore(b0 - 0xC0, b[1]), 0x80, 2)
    else if 0xE0 <= b0 < 0xF0 && |b| >= 3 && Continues(b[1]) && Continues(b[2]) then
      Scalar(SixMore(SixMore(b0 - 0xE0, b[1]), b[2]), 0x800, 3)
    else if 0xF0 <= b0 < 0xF8 && |b| >= 4 && Continues(b[1]) && Continues(b[2]) && Continues(b[3]) then
      Scalar(SixMore(SixMore(SixMore(b0 - 0xF0, b[1]), b[2]), b[3]), 0x10000, 4)
    else None
  }

  /** Six more bits from a continuation byte. */
  function SixMore(high: int, next: int): int {
    high * 64 + (next - 0x80)
  }

  function Utf8Decode(b: seq<Byte>): Option<string> {
    if b == [] then Some("")
    else match Utf8First(b)
      case None => None
      case Some((c, n)) =>
        match Utf8Decode(b[n..])
        case None => None
        case Some(rest) => Some([c] + rest)
  }

  lemma Utf8CharRoundTrip(c: char, rest: seq<Byte>)
    ensures Utf8First(Utf8Char(c) + rest) == Some((c, |Utf8Char(c)|))
  {
    var n := c as int;
    var b := Utf8Char(c) + rest;
    assert b[..|Utf8Char(c)|] == Utf8Char(c);
    assert SixMore(n / 64, 0x80 + n % 64) == n;
    assert SixMore(n / 64 / 64, 0x80 + n / 64 % 64) == n / 64;
    assert SixMore(n / 64 / 64 / 64, 0x80 + n / 64 / 64 % 64) == n / 64 / 64;
  }

  lemma {:induction false} Utf8RoundTrip(s: string)
    ensures Utf8Decode(Utf8Encode(s)) == Some(s)
  {
    if s != "" {
      var b := Utf8Encode(s);
      Utf8CharRoundTrip(s[0], Utf8Encode(s[1..]));
      assert b[|Utf8Char(s[0])|..] == Utf8Encode(s[1..]);
      Utf8RoundTrip(s[1..]);
      assert s == [s[0]] + s[1..];
    }
  }

  // ---------- base64url (section 5 of RFC 4648) ----------

  type Digit = d: int | 0 <= d < 64

  function DigitChar(d: Digit): char {
    if d < 26 then ('A' as int + d) as char
    else if d < 52 then ('a' as int + (d - 26)) as char
    else if d < 62 then ('0' as int + (d - 52)) as char
    else if d == 62 then '-' else '_'
  }

  /** The decoder also takes the two characters of the standard alphabet. */
  function CharDigit(c: char): Option<Digit> {
    if 'A' <= c <= 'Z' then Some(c as int - 'A' as int)
    else if 'a' <= c <= 'z' then Some(c as int - 'a' as int + 26)
    else if '0' <= c <= '9' then Some(c as int - '0' as int + 52)
    else if c == '-' || c == '+' then Some(62)
    else if c == '_' || c == '/' then Some(63)
    else None
  }

  lemma DigitRoundTrip(d: Digit)
    ensures CharDigit(DigitChar(d)) == Some(d) && DigitChar(d) != '='
  {
  }

  function Base64Encode(b: seq<Byte>): string {
    if b == [] then ""
    else if |b| == 1 then [DigitChar(b[0] / 4), DigitChar(b[0] % 4 * 16), '=', '=']
    else if |b| == 2 then
      [DigitChar(b[0] / 4), DigitChar(b[0] % 4 * 16 + b[1] / 16), DigitChar(b[1] % 16 * 4), '=']
    else
      [DigitChar(b[0] / 4), DigitChar(b[0] % 4 * 16 + b[1] / 16),
       DigitChar(b[1] % 16 * 4 + b[2] / 64), DigitChar(b[2] % 64)] + Base64Encode(b[3..])
  }

  /**
   The lenient decoder: `quad` digits of the current group have been read, `left` holds the
   bits not yet written and `pads` counts the padding seen.  Characters outside the alphabet are
   skipped, enough padding ends the input, and a group left incomplete is an error.
   */
  function Base64From(s: string, quad: nat, left: nat, pads: nat): Option<seq<Byte>>
    requires quad < 4
    requires left < if quad == 1 then 64 else if quad == 2 then 16 else if quad == 3 then 4 else 1
  {
    if s == "" then if quad == 0 then Some([]) else None
    else if s[0] == '=' then
      if quad >= 2 && quad + pads + 1 >= 4 then Some([])
      else Base64From(s[1..], quad, left, if quad >= 2 then pads + 1 else pads)
    else match CharDigit(s[0])
      case None => Base64From(s[1..], quad, left, pads)
      case Some(d) =>
        if quad == 0 then Base64From(s[1..], 1, d, 0)
        else if quad == 1 then Emit(left * 4 + d / 16, Base64From(s[1..], 2, d % 16, 0))
        else if quad == 2 then Emit(left * 16 + d / 4, Base64From(s[1..], 3, d % 4, 0))
        else Emit(left * 64 + d, Base64From(s[1..], 0, 0, 0))
  }

  function Emit(b: Byte, rest: Option<seq<Byte>>): Option<seq<Byte>> {
    match rest
    case None => None
    case Some(bytes) => Some([b] + bytes)
  }

  function Base64Decode(s: string): Option<seq<Byte>> {
    Base64From(s, 0, 0, 0)
  }

  /** Reading one digit that the encoder wrote. */
  lemma ReadDigit(d: Digit, s: string, quad: nat, left: nat, pads: nat)
    requires quad < 4
    requires left < if quad == 1 then 64 else if quad == 2 then 16 else if quad == 3 then 4 else 1
    ensures Base64From([DigitChar(d)] + s, quad, left, pads) ==
            if quad == 0 then Base64From(s, 1, d, 0)
            else if quad == 1 then Emit(left * 4 + d / 16, Base64From(s, 2, d % 16, 0))
            else if quad == 2 then Emit(left * 16 + d / 4, Base64From(s, 3, d % 4, 0))
            else Emit(left * 64 + d, Base64From(s, 0, 0, 0))
  {
    DigitRoundTrip(d);
    assert ([DigitChar(d)] + s)[1..] == s;
  }

  lemma ReadOne(x: Byte)
    ensures Base64Decode(Base64Encode([x])) == Some([x])
  {
    var d0: Digit, d1: Digit := x / 4, x % 4 * 16;
    ReadDigit(d0, [DigitChar(d1)] + "==", 0, 0, 0);
    ReadDigit(d1, "==", 1, d0, 0);
    assert Base64Encode([x]) == [DigitChar(d0)] + ([DigitChar(d1)] + "==");
    assert "=="[1..] == "=";
    assert Base64From("==", 2, d1 % 16, 0) == Base64From("=", 2, d1 % 16, 1) == Some([]);
    var none: seq<Byte> := [];
    assert d0 * 4 + d1 / 16 == x && [x] + none == [x];
  }

  lemma ReadTwo(x: Byte, y: Byte)
    ensures Base64Decode(Base64Encode([x, y])) == Some([x, y])
  {
    var d0: Digit, d1: Digit, d2: Digit := x / 4, x % 4 * 16 + y / 16, y % 16 * 4;
    ReadDigit(d0, [DigitChar(d1)] + ([DigitChar(d2)] + "="), 0, 0, 0);
    ReadDigit(d1, [DigitChar(d2)] + "=", 1, d0, 0);
    ReadDigit(d2, "=", 2, d1 % 16, 0);
    assert Base64Encode([x, y]) == [DigitChar(d0)] + ([DigitChar(d1)] + ([DigitChar(d2)] + "="));
    var none: seq<Byte> := [];
    assert d0 * 4 + d1 / 16 == x && d1 % 16 * 16 + d2 / 4 == y;
    assert [y] + none == [y] && [x] + [y] == [x, y];
  }

  lemma EncodeGroup(x: Byte, y: Byte, z: Byte, more: seq<Byte>)
    ensures Base64Encode([x, y, z] + more) ==
            [DigitChar(x / 4)] + ([DigitChar(x % 4 * 16 + y / 16)] + ([DigitChar(y % 16 * 4 + z / 64)]
                               + ([DigitChar(z % 64)]
            + Base64Encode(more))))
  {
    var b := [x, y, z] + more;
    assert b[3..] == more && b[0] == x && b[1] == y && b[2] == z;
  }

  /** A full group of four digits puts three bytes in front of whatever follows. */
  lemma ReadGroup(d0: Digit, d1: Digit, d2: Digit, d3: Digit, rest: string)
    ensures Base64Decode([DigitChar(d0)] + ([DigitChar(d1)] + ([DigitChar(d2)] + ([DigitChar(d3)] + rest)))) ==
            Emit(d0 * 4 + d1 / 16, Emit(d1 % 16 * 16 + d2 / 4, Emit(d2 % 4 * 64 + d3, Base64Decode(rest))))
  {
    ReadDigit(d3, rest, 3, d2 % 4, 0);
    ReadDigit(d2, [DigitChar(d3)] + rest, 2, d1 % 16, 0);
    ReadDigit(d1, [DigitChar(d2)] + ([DigitChar(d3)] + rest), 1, d0, 0);
    ReadDigit(d0, [DigitChar(d1)] + ([DigitChar(d2)] + ([DigitChar(d3)] + rest)), 0, 0, 0);
  }

  lemma GroupRoundTrip(x: Byte, y: Byte, z: Byte, more: seq<Byte>)
    requires Base64Decode(Base64Encode(more)) == Some(more)
    ensures Base64Decode(Base64Encode([x, y, z] + more)) == Some([x, y, z] + more)
  {
    EncodeGroup(x, y, z, more);
    var d0: Digit, d1: Digit, d2: Digit, d3: Digit := x / 4, x % 4 * 16 + y / 16, y % 16 * 4 + z / 64, z % 64;
    ReadGroup(d0, d1, d2, d3, Base64Encode(more));
    assert d0 * 4 + d1 / 16 == x;
    assert d1 % 16 * 16 + d2 / 4 == y;
    assert d2 % 4 * 64 + d3 == z;
    assert [x] + ([y] + ([z] + more)) == [x, y, z] + more;
  }

  lemma {:induction false} Base64RoundTrip(b: seq<Byte>)
    ensures Base64Decode(Base64Encode(b)) == Some(b)
  {
    if |b| == 1 {
      ReadOne(b[0]);
      assert b == [b[0]];
    } else if |b| == 2 {
      ReadTwo(b[0], b[1]);
      assert b == [b[0], b[1]];
    } else if |b| > 2 {
      Base64RoundTrip(b[3..]);
      GroupRoundTrip(b[0], b[1], b[2], b[3..]);
      assert b == [b[0], b[1], b[2]] + b[3..];
    }
  }

  predicate IsBase64Char(c: char) {
    'A' <= c <= 'Z' || 'a' <= c <= 'z' || '0' <= c <= '9' || c == '-' || c == '_' || c == '='
  }

  lemma {:induction false} Base64Alphabet(b: seq<Byte>)
    ensures forall i :: 0 <= i < |Base64Encode(b)| ==> IsBase64Char(Base64Encode(b)[i])
    ensures b != [] ==> Base64Encode(b) != ""
  {
    if |b| > 2 {
      Base64Alphabet(b[3..]);
    }
  }

  // ---------- Hexadecimal ----------

  function HexDigit(n: int): char
    requires 0 <= n < 16
  {
    if n < 10 then ('0' as int + n) as char else ('a' as int + (n - 10)) as char
  }

  function Hex(b: seq<Byte>): (s: string)
    ensures |s| == 2 * |b| && forall i :: 0 <= i < |s| ==> '0' <= s[i] <= '9' || 'a' <= s[i] <= 'f'
  {
    if b == [] then "" else [HexDigit(b[0] / 16), HexDigit(b[0] % 16)] + Hex(b[1..])
  }

  /** The value of a hexadecimal digit. */
  function HexValue(c: char): int {
    if '0' <= c <= '9' then c as int - '0' as int else c as int - 'a' as int + 10
  }

  /** Each byte becomes the two lower-case digits of its value, the higher one first. */
  lemma {:induction false} HexReadsBack(b: seq<Byte>, k: nat)
    requires k < |b|
    ensures b[k] == 16 * HexValue(Hex(b)[2 * k]) + HexValue(Hex(b)[2 * k + 1])
  {
    if k > 0 {
      HexReadsBack(b[1..], k - 1);
    }
  }

  /** Equally long beginnings of two hexadecimal texts are equal exactly when the bytes they show are. */
  lemma HexPrefixes(a: seq<Byte>, b: seq<Byte>, n: nat)
    requires n <= |a| && n <= |b|
    ensures Hex(a)[..2 * n] == Hex(b)[..2 * n] <==> a[..n] == b[..n]
  {
    HexOfPrefix(a, n);
    HexOfPrefix(b, n);
    if Hex(a)[..2 * n] == Hex(b)[..2 * n] {
      forall k | 0 <= k < n
        ensures a[k] == b[k]
      {
        HexReadsBack(a[..n], k);
        HexReadsBack(b[..n], k);
      }
    }
  }

  lemma {:induction false} HexOfPrefix(b: seq<Byte>, n: nat)
    requires n <= |b|
    ensures Hex(b)[..2 * n] == Hex(b[..n])
  {
    if n > 0 {
      HexOfPrefix(b[1..], n - 1);
      assert b[..n][1..] == b[1..][..n - 1];
      var first := Hex(b)[..2];
      assert Hex(b)[..2 * n] == first + Hex(b[1..])[..2 * (n - 1)];
    }
  }

  /** ASCII text is encoded as its own codes. */
  lemma {:induction false} AsciiStays(s: string)
    requires forall i :: 0 <= i < |s| ==> s[i] as int < 128
    ensures |Utf8Encode(s)| == |s| && forall i :: 0 <= i < |s| ==> Utf8Encode(s)[i] == s[i] as int
  {
    if s != "" {
      AsciiStays(s[1..]);
    }
  }

  /** The test vectors of section 10 of RFC 4648, and the two characters that make the URL-safe alphabet. */
  lemma Base64Vectors()
    ensures Base64Encode([102]) == "Zg==" && Base64Encode([102, 111]) == "Zm8="
    ensures Base64Encode([102, 111, 111]) == "Zm9v" && Base64Encode([251, 239, 255]) == "--__"
  {
    Base64Group(102, 111, 111);
    Base64Group(251, 239, 255);
  }

  lemma Base64Group(x: Byte, y: Byte, z: Byte)
    ensures Base64Encode([x, y, z]) ==
            [DigitChar(x / 4), DigitChar(x % 4 * 16 + y / 16), DigitChar(y % 16 * 4 + z / 64), DigitChar(z % 64)]
  {
    assert [x, y, z][3..] == [];
  }

  /**
   One letter from each of the four lengths of section 3 of RFC 3629: A, e with acute accent, the euro sign,
   U+1F600.
   */
  lemma Utf8Examples()
    ensures Utf8Char('A') == [0x41] && Utf8Char(0xE9 as char) == [0xC3, 0xA9]
    ensures Utf8Char(0x20AC as char) == [0xE2, 0x82, 0xAC] && Utf8Char(0x1F600 as char) == [0xF0, 0x9F, 0x98, 0x80]
  {
  }
}
