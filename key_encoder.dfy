/**
 * `FileStore.encodeKey`: the key is split on `.`; each segment's UTF-8 bytes
 * are shifted by the segment's length modulo 256; the shifted `[UInt8]` is
 * JSON-encoded (`Encodable.data`, compact: `[105,106]`); that JSON text is
 * base64-encoded; the encoded segments are joined with `.` again.
 */
module KeyEncoder {
  import opened Base64
  import opened Text

  /** UTF-8 bytes of one Unicode scalar value. */
  function Utf8Char(c: char): (r: seq<byte>)
    ensures 1 <= |r| <= 4
    ensures c as int < 128 ==> r == [c as int]
  {
    var n := c as int;
    if n < 0x80 then [n]
    else if n < 0x800 then [0xC0 + n / 64, 0x80 + n % 64]
    else if n < 0x10000 then [0xE0 + n / 4096, 0x80 + (n / 64) % 64, 0x80 + n % 64]
    else [0xF0 + n / 0x40000, 0x80 + (n / 4096) % 64, 0x80 + (n / 64) % 64, 0x80 + n % 64]
  }

  /** `s.data(using: .utf8)` */
  function Utf8(s: string): (r: seq<byte>)
    ensures |r| >= |s|
  {
    if |s| == 0 then [] else Utf8Char(s[0]) + Utf8(s[1..])
  }

  /** Every character is ASCII, so that characters, bytes and `count` agree. */
  predicate IsAscii(s: string) {
    forall i :: 0 <= i < |s| ==> s[i] as int < 128
  }

  /** On ASCII text UTF-8 is the identity on code points. */
  lemma {:induction false} Utf8OfAscii(s: string)
    requires IsAscii(s)
    ensures |Utf8(s)| == |s|
    ensures forall i :: 0 <= i < |s| ==> Utf8(s)[i] == s[i] as int
  {
    if |s| > 0 {
      Utf8OfAscii(s[1..]);
    }
  }

  /** `UInt8((Int(b) + n) % 256)` applied to every byte. */
  function ShiftBy(v: seq<byte>, n: nat): (r: seq<byte>)
    ensures |r| == |v|
  {
    seq(|v|, i requires 0 <= i < |v| => (v[i] + n) % 256)
  }

  /** The shifted bytes of one segment: its UTF-8 bytes moved up by its own length. */
  function ShiftSegment(segment: string): seq<byte> {
    ShiftBy(Utf8(segment), |segment|)
  }

  /** The decimal numerals of a byte array, in order. */
  function Numerals(a: seq<byte>): (r: seq<string>)
    ensures |r| == |a|
    ensures forall i :: 0 <= i < |a| ==> r[i] == Decimal(a[i])
  {
    if |a| == 0 then [] else [Decimal(a[0])] + Numerals(a[1..])
  }

  predicate IsJsonArrayChar(c: char) {
    IsDigit(c) || c == ',' || c == '[' || c == ']'
  }

  /** A comma-join of digit strings holds only digits and commas. */
  lemma {:induction false} JoinNumeralsChars(parts: seq<string>)
    requires forall k, j :: 0 <= k < |parts| && 0 <= j < |parts[k]| ==> IsDigit(parts[k][j])
    ensures forall i :: 0 <= i < |Join(parts, ',')| ==> IsDigit(Join(parts, ',')[i]) || Join(parts, ',')[i] == ','
  {
    if |parts| > 1 {
      JoinNumeralsChars(parts[1..]);
      var t := Join(parts, ',');
      assert t == parts[0] + [','] + Join(parts[1..], ',');
      forall i | 0 <= i < |t| ensures IsDigit(t[i]) || t[i] == ',' {
        if i < |parts[0]| {
          assert t[i] == parts[0][i];
        } else if i > |parts[0]| {
          assert t[i] == Join(parts[1..], ',')[i - |parts[0]| - 1];
        }
      }
    } else if |parts| == 1 {
      assert Join(parts, ',') == parts[0];
    }
  }

  /** The JSON text `JSONEncoder` writes for a `[UInt8]`: `[`, comma-joined numerals, `]`. */
  function JsonByteArray(a: seq<byte>): (t: string)
    ensures |t| >= 2 && t[0] == '[' && t[|t| - 1] == ']'
    ensures forall i :: 0 <= i < |t| ==> IsJsonArrayChar(t[i])
  {
    JoinNumeralsChars(Numerals(a));
    "[" + Join(Numerals(a), ',') + "]"
  }

  /** One encoded segment: base64 of the JSON text of the shifted bytes. */
  function EncodeSegment(segment: string): (r: string)
    ensures |r| >= 4 && |r| % 4 == 0
    ensures '.' !in r
  {
    var t := JsonByteArray(ShiftSegment(segment));
    JsonIsAscii(t);
    var r := Encode(AsciiBytes(t));
    Base64HasNoDot(r);
    WholeGroups(|t|);
    r
  }

  /** Base64 of at least two bytes fills one or more whole groups of four. */
  lemma WholeGroups(n: nat)
    requires n >= 2
    ensures 4 * ((n + 2) / 3) >= 4 && (4 * ((n + 2) / 3)) % 4 == 0
  {
    var q := (n + 2) / 3;
    assert q >= 1;
  }

  lemma JsonIsAscii(t: string)
    requires forall i :: 0 <= i < |t| ==> IsJsonArrayChar(t[i])
    ensures forall i :: 0 <= i < |t| ==> t[i] as int < 128
  {
  }

  lemma Base64HasNoDot(r: string)
    requires forall i :: 0 <= i < |r| ==> IsBase64Char(r[i])
    ensures '.' !in r
  {
    forall i | 0 <= i < |r| ensures r[i] != '.' {
      assert IsBase64Char(r[i]);
    }
  }

  /** `EncodeSegment` applied to every segment, in order. */
  function EncodeSegments(parts: seq<string>): (r: seq<string>)
    ensures |r| == |parts|
    ensures forall i :: 0 <= i < |parts| ==> r[i] == EncodeSegment(parts[i])
  {
    if |parts| == 0 then [] else [EncodeSegment(parts[0])] + EncodeSegments(parts[1..])
  }

  /**
   * The encoding of `segment + rest`, read one character at a time:
   * `segment` is the part of the current component read so far, and each
   * `.` in `rest` closes a component.
   */
  function EncodeScan(segment: string, rest: string): string
    decreases |rest|
  {
    if |rest| == 0 then EncodeSegment(segment)
    else if rest[0] == '.' then EncodeSegment(segment) + "." + EncodeScan("", rest[1..])
    else EncodeScan(segment + [rest[0]], rest[1..])
  }

  /** `FileStore.encodeKey(key)`, in one pass over the key. */
  function EncodeKey(key: string): string {
    EncodeScan("", key)
  }

  lemma {:induction false} EncodeScanByComponents(segment: string, rest: string)
    requires '.' !in segment
    ensures EncodeScan(segment, rest) == Join(EncodeSegments(Split(segment + rest, '.')), '.')
    decreases |rest|
  {
    if |rest| == 0 {
      assert segment + rest == segment;
      SplitSingle(segment, '.');
    } else if rest[0] == '.' {
      var tail := rest[1..];
      EncodeScanByComponents("", tail);
      assert "" + tail == tail;
      MoveHead(segment, rest);
      SplitCons(segment, tail, '.');
      EncodeSegmentsCons(segment, Split(tail, '.'));
      JoinCons(EncodeSegment(segment), EncodeSegments(Split(tail, '.')), '.');
    } else {
      EncodeScanByComponents(segment + [rest[0]], rest[1..]);
      MoveHead(segment, rest);
    }
  }

  lemma EncodeSegmentsCons(segment: string, parts: seq<string>)
    ensures EncodeSegments([segment] + parts) == [EncodeSegment(segment)] + EncodeSegments(parts)
  {
    assert ([segment] + parts)[1..] == parts;
  }

  /**
   * `encodeKey` as written: the key's `.`-separated components, each
   * encoded, joined with `.` again.
   */
  lemma EncodeKeyByComponents(key: string)
    ensures EncodeKey(key) == Join(EncodeSegments(Split(key, '.')), '.')
  {
    EncodeScanByComponents("", key);
    assert "" + key == key;
  }

  /**
   * The output has exactly as many `.`-separated segments as the key, and
   * segment i of the output is the encoding of segment i of the key.
   */
  lemma EncodeKeySegments(key: string)
    ensures Split(EncodeKey(key), '.') == EncodeSegments(Split(key, '.'))
    ensures |Split(EncodeKey(key), '.')| == |Split(key, '.')|
  {
    EncodeKeyByComponents(key);
    SplitJoin(EncodeSegments(Split(key, '.')), '.');
  }

  /** The last four characters of an encoded key hold no `.`. */
  lemma EncodeKeyTail(key: string)
    ensures |EncodeKey(key)| >= 4
    ensures forall i :: |EncodeKey(key)| - 4 <= i < |EncodeKey(key)| ==> EncodeKey(key)[i] != '.'
  {
    EncodeKeyByComponents(key);
    var segs := EncodeSegments(Split(key, '.'));
    assert segs[|segs| - 1] == EncodeSegment(Split(key, '.')[|segs| - 1]);
    JoinTail(segs, '.', 4);
  }

  // ---- The inverse: encoded names decode back to the key ----

  /** `DecimalValue` of every part, in order. */
  function Values(parts: seq<string>): (r: seq<int>)
    ensures |r| == |parts|
  {
    if |parts| == 0 then [] else [DecimalValue(parts[0]) as int] + Values(parts[1..])
  }

  /** Reads the numbers back out of JSON text of the form `[n,n,...]`. */
  function ParseByteArray(t: string): seq<int> {
    if |t| >= 2 && t[0] == '[' && t[|t| - 1] == ']' then
      var body := t[1..|t| - 1];
      if body == "" then [] else Values(Split(body, ','))
    else []
  }

  /** Moves every number down by `n` modulo 256 and reads it as a character. */
  function UnshiftText(v: seq<int>, n: nat): (r: string)
    ensures |r| == |v|
  {
    seq(|v|, i requires 0 <= i < |v| => ((v[i] - n) % 256) as char)
  }

  /** Inverse of `EncodeSegment` on ASCII segments. */
  function DecodeSegment(e: string): string {
    var nums := ParseByteArray(BytesText(Decode(e)));
    UnshiftText(nums, |nums|)
  }

  function DecodeSegments(parts: seq<string>): (r: seq<string>)
    ensures |r| == |parts|
    ensures forall i :: 0 <= i < |parts| ==> r[i] == DecodeSegment(parts[i])
  {
    if |parts| == 0 then [] else [DecodeSegment(parts[0])] + DecodeSegments(parts[1..])
  }

  /** Inverse of `EncodeKey` on ASCII keys. */
  function DecodeKey(e: string): string {
    Join(DecodeSegments(Split(e, '.')), '.')
  }

  lemma {:induction false} ValuesOfNumerals(a: seq<byte>)
    ensures Values(Numerals(a)) == a
  {
    if |a| > 0 {
      DecimalValueOfDecimal(a[0]);
      ValuesOfNumerals(a[1..]);
      assert Numerals(a)[1..] == Numerals(a[1..]);
    }
  }

  /** The JSON text of a byte array parses back to it. */
  lemma ParseJsonByteArray(a: seq<byte>)
    ensures ParseByteArray(JsonByteArray(a)) == a
  {
    var t := JsonByteArray(a);
    var body := Join(Numerals(a), ',');
    assert t[1..|t| - 1] == body;
    if |a| > 0 {
      assert forall i :: 0 <= i < |Numerals(a)| ==> ',' !in Numerals(a)[i] by {
        forall i | 0 <= i < |Numerals(a)| ensures ',' !in Numerals(a)[i] {
          var d := Numerals(a)[i];
          assert forall j :: 0 <= j < |d| ==> IsDigit(d[j]);
        }
      }
      SplitJoin(Numerals(a), ',');
      ValuesOfNumerals(a);
      assert |body| >= |Numerals(a)[0]| >= 1 by {
        if |a| > 1 {
          assert body == Numerals(a)[0] + [','] + Join(Numerals(a)[1..], ',');
        }
      }
    }
  }

  lemma UnshiftByte(b: byte, n: nat)
    ensures (((b + n) % 256) - n) % 256 == b
  {
    var k := (b + n) / 256;
    assert (b + n) % 256 == b + n - 256 * k;
    assert ((b + n - 256 * k) - n) == b - 256 * k;
  }

  /** Base64 and JSON decoding recover the shifted bytes of a segment. */
  lemma DecodeSegmentNumbers(s: string)
    ensures ParseByteArray(BytesText(Decode(EncodeSegment(s)))) == ShiftSegment(s)
  {
    var shifted := ShiftSegment(s);
    var t := JsonByteArray(shifted);
    assert IsAscii(t) by {
      forall i | 0 <= i < |t| ensures t[i] as int < 128 {
        assert IsJsonArrayChar(t[i]);
      }
    }
    var bytes := AsciiBytes(t);
    assert EncodeSegment(s) == Encode(bytes);
    DecodeEncode(bytes);
    assert BytesText(bytes) == t;
    ParseJsonByteArray(shifted);
  }

  /** Moving the shifted bytes of an ASCII segment back down gives the segment. */
  lemma UnshiftSegment(s: string)
    requires IsAscii(s)
    ensures UnshiftText(ShiftSegment(s), |ShiftSegment(s)|) == s
  {
    Utf8OfAscii(s);
    var r := UnshiftText(ShiftSegment(s), |ShiftSegment(s)|);
    forall i | 0 <= i < |s| ensures r[i] == s[i] {
      UnshiftByte(s[i] as int, |s|);
    }
  }

  /** Decoding undoes encoding on one ASCII segment. */
  lemma DecodeEncodeSegment(s: string)
    requires IsAscii(s)
    ensures DecodeSegment(EncodeSegment(s)) == s
  {
    DecodeSegmentNumbers(s);
    UnshiftSegment(s);
  }

  lemma {:induction false} DecodeEncodeSegments(parts: seq<string>)
    requires forall i :: 0 <= i < |parts| ==> IsAscii(parts[i])
    ensures DecodeSegments(EncodeSegments(parts)) == parts
  {
    if |parts| > 0 {
      DecodeEncodeSegment(parts[0]);
      DecodeEncodeSegments(parts[1..]);
      assert EncodeSegments(parts)[1..] == EncodeSegments(parts[1..]);
    }
  }

  /** Every segment of an ASCII key is ASCII. */
  lemma {:induction false} SplitAscii(s: string, sep: char)
    requires IsAscii(s)
    ensures forall i :: 0 <= i < |Split(s, sep)| ==> IsAscii(Split(s, sep)[i])
  {
    if |s| > 0 {
      SplitAscii(s[1..], sep);
    }
  }

  /** `DecodeKey` inverts `EncodeKey` on ASCII keys. */
  lemma DecodeEncodeKey(key: string)
    requires IsAscii(key)
    ensures DecodeKey(EncodeKey(key)) == key
  {
    var parts := Split(key, '.');
    EncodeKeyByComponents(key);
    EncodeKeySegments(key);
    SplitAscii(key, '.');
    DecodeEncodeSegments(parts);
    JoinSplit(key, '.');
  }

  /** Two different ASCII keys never share an encoded file name. */
  lemma EncodeKeyInjective(k1: string, k2: string)
    requires IsAscii(k1) && IsAscii(k2)
    requires EncodeKey(k1) == EncodeKey(k2)
    ensures k1 == k2
  {
    DecodeEncodeKey(k1);
    DecodeEncodeKey(k2);
  }
}
