/**
 * Bytes and the base64 encoding of section 4 of RFC 4648 (standard alphabet,
 * `=` padding), as `Data.base64EncodedString()` / `base64EncodedData()` produce it.
 */
module Base64 {

  /** A `UInt8`. */
  type byte = x: int | 0 <= x < 256

  /** The 64 characters of the alphabet, `A`-`Z`, `a`-`z`, `0`-`9`, `+`, `/`. */
  function Symbol(i: int): (c: char)
    requires 0 <= i < 64
  {
    if i < 26 then ('A' as int + i) as char
    else if i < 52 then ('a' as int + (i - 26)) as char
    else if i < 62 then ('0' as int + (i - 52)) as char
    else if i == 62 then '+'
    else '/'
  }

  /** The position of `c` in the alphabet (0 for characters outside it). */
  function Index(c: char): (i: int)
    ensures 0 <= i < 64
  {
    if 'A' <= c <= 'Z' then c as int - 'A' as int
    else if 'a' <= c <= 'z' then c as int - 'a' as int + 26
    else if '0' <= c <= '9' then c as int - '0' as int + 52
    else if c == '+' then 62
    else if c == '/' then 63
    else 0
  }

  /** A character that can appear in base64 output: the alphabet or the pad. */
  predicate IsBase64Char(c: char) {
    'A' <= c <= 'Z' || 'a' <= c <= 'z' || '0' <= c <= '9' || c == '+' || c == '/' || c == '='
  }

  lemma IndexOfSymbol(i: int)
    requires 0 <= i < 64
    ensures Index(Symbol(i)) == i && IsBase64Char(Symbol(i)) && Symbol(i) != '='
  {
  }

  /** The four characters for one group of one to three bytes. */
  function EncodeGroup(g: seq<byte>): (r: string)
    requires 1 <= |g| <= 3
    ensures |r| == 4
    ensures forall i :: 0 <= i < 4 ==> IsBase64Char(r[i])
  {
    var b1 := if |g| >= 2 then g[1] else 0;
    var b2 := if |g| >= 3 then g[2] else 0;
    [Symbol(g[0] / 4),
     Symbol((g[0] % 4) * 16 + b1 / 16),
     if |g| >= 2 then Symbol((b1 % 16) * 4 + b2 / 64) else '=',
     if |g| >= 3 then Symbol(b2 % 64) else '=']
  }

  /** Base64 text of `b`: 4 characters per 3 bytes, the last group padded with `=`. */
  function Encode(b: seq<byte>): (r: string)
    ensures |r| == 4 * ((|b| + 2) / 3)
    ensures forall i :: 0 <= i < |r| ==> IsBase64Char(r[i])
    decreases |b|
  {
    if |b| == 0 then ""
    else if |b| <= 3 then EncodeGroup(b)
    else EncodeGroup(b[..3]) + Encode(b[3..])
  }

  /** The bytes of one group of four characters; `=` in the third or fourth place ends the data. */
  function DecodeGroup(q: string): (r: seq<byte>)
    requires |q| == 4
  {
    var a, b, c, d := Index(q[0]), Index(q[1]), Index(q[2]), Index(q[3]);
    var x: byte := a * 4 + b / 16;
    var y: byte := (b % 16) * 16 + c / 4;
    var z: byte := (c % 4) * 64 + d;
    if q[2] == '=' then [x] else if q[3] == '=' then [x, y] else [x, y, z]
  }

  /** Base64 decoding of well-formed text. */
  function Decode(s: string): seq<byte>
    decreases |s|
  {
    if |s| < 4 then [] else DecodeGroup(s[..4]) + Decode(s[4..])
  }

  lemma Split16(q: int, r: int)
    requires 0 <= r < 16
    ensures (q * 16 + r) / 16 == q && (q * 16 + r) % 16 == r
  {
  }

  lemma Split4(q: int, r: int)
    requires 0 <= r < 4
    ensures (q * 4 + r) / 4 == q && (q * 4 + r) % 4 == r
  {
  }

  /** The bit arithmetic of one group is undone by decoding. */
  lemma GroupArithmetic(b0: byte, b1: byte, b2: byte)
    ensures
      var a, b, c, d := b0 / 4, (b0 % 4) * 16 + b1 / 16, (b1 % 16) * 4 + b2 / 64, b2 % 64;
      a * 4 + b / 16 == b0 && (b % 16) * 16 + c / 4 == b1 && (c % 4) * 64 + d == b2
  {
    Split16(b0 % 4, b1 / 16);
    Split4(b1 % 16, b2 / 64);
  }

  /** One group decodes back to its bytes. */
  lemma DecodeEncodeGroup(g: seq<byte>)
    requires 1 <= |g| <= 3
    ensures DecodeGroup(EncodeGroup(g)) == g
  {
    var b1 := if |g| >= 2 then g[1] else 0;
    var b2 := if |g| >= 3 then g[2] else 0;
    var a, b, c, d := g[0] / 4, (g[0] % 4) * 16 + b1 / 16, (b1 % 16) * 4 + b2 / 64, b2 % 64;
    GroupArithmetic(g[0], b1, b2);
    IndexOfSymbol(a);
    IndexOfSymbol(b);
    IndexOfSymbol(c);
    IndexOfSymbol(d);
    var q := EncodeGroup(g);
    assert Index(q[0]) == a && Index(q[1]) == b;
    if |g| == 1 {
      assert q[2] == '=';
    } else if |g| == 2 {
      assert q[2] != '=' && q[3] == '=' && Index(q[2]) == c;
    } else {
      assert q[2] != '=' && q[3] != '=' && Index(q[2]) == c && Index(q[3]) == d;
    }
  }

  /** Decoding inverts encoding: base64 loses nothing. */
  lemma {:induction false} DecodeEncode(b: seq<byte>)
    ensures Decode(Encode(b)) == b
    decreases |b|
  {
    if 1 <= |b| <= 3 {
      DecodeEncodeGroup(b);
      assert Encode(b)[..4] == EncodeGroup(b);
    } else if |b| > 3 {
      var s := Encode(b);
      DecodeEncodeGroup(b[..3]);
      DecodeEncode(b[3..]);
      assert s[..4] == EncodeGroup(b[..3]);
      assert s[4..] == Encode(b[3..]);
      assert b[..3] + b[3..] == b;
    }
  }

  /** Base64 is injective. */
  lemma EncodeInjective(a: seq<byte>, b: seq<byte>)
    requires Encode(a) == Encode(b)
    ensures a == b
  {
    DecodeEncode(a);
    DecodeEncode(b);
  }

  /** The bytes of an ASCII string, as `Data` holds base64 text. */
  function AsciiBytes(s: string): (r: seq<byte>)
    requires forall i :: 0 <= i < |s| ==> s[i] as int < 128
    ensures |r| == |s|
    ensures forall i :: 0 <= i < |s| ==> r[i] == s[i] as int
  {
    seq(|s|, i requires 0 <= i < |s| => s[i] as int)
  }

  /** The characters of a byte string read as Latin-1 (ASCII for bytes below 128). */
  function BytesText(b: seq<byte>): (r: string)
    ensures |r| == |b|
    ensures forall i :: 0 <= i < |b| ==> r[i] as int == b[i]
  {
    seq(|b|, i requires 0 <= i < |b| => b[i] as char)
  }

  /** Base64 text is ASCII. */
  lemma EncodeIsAscii(b: seq<byte>)
    ensures forall i :: 0 <= i < |Encode(b)| ==> Encode(b)[i] as int < 128
  {
    var r := Encode(b);
    forall i | 0 <= i < |r| ensures r[i] as int < 128 {
      assert IsBase64Char(r[i]);
    }
  }

  /** `Data(s.utf8).base64EncodedData()`: the base64 text as bytes. */
  function EncodeData(b: seq<byte>): (r: seq<byte>)
    ensures |r| == 4 * ((|b| + 2) / 3)
  {
    EncodeIsAscii(b);
    AsciiBytes(Encode(b))
  }

  /** Reading base64 bytes back as text gives the text. */
  lemma TextOfEncodeData(b: seq<byte>)
    ensures BytesText(EncodeData(b)) == Encode(b)
  {
    EncodeIsAscii(b);
  }
}
