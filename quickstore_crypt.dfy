/**
 * `SimpleCrypt`, the default cipher of the store: a per-byte shift by the
 * key's length modulo 255, then base64. `decrypt` is modelled as written: it
 * base64-ENCODES its input before shifting back, so it does not invert
 * `encrypt`. `EncryptFixed`/`DecryptFixed` are the evidently intended pair.
 */
module QuickStoreCrypt {
  import opened Base64

  /** The shift inside `encrypt`: `(b + key.count % 255) % 255`. */
  function EncryptShift(key: string, v: seq<byte>): (r: seq<byte>)
    ensures |r| == |v|
    ensures forall i :: 0 <= i < |v| ==> r[i] <= 254
  {
    seq(|v|, i requires 0 <= i < |v| => (v[i] + |key| % 255) % 255)
  }

  /** The shift inside `decrypt`: `(b + (255 - key.count % 255)) % 255`. */
  function DecryptShift(key: string, v: seq<byte>): (r: seq<byte>)
    ensures |r| == |v|
  {
    seq(|v|, i requires 0 <= i < |v| => (v[i] + (255 - |key| % 255)) % 255)
  }

  /** `encrypt(key, value)`: base64 text (as bytes) of the shifted bytes. */
  function Encrypt(key: string, value: seq<byte>): (r: seq<byte>)
    ensures |r| == 4 * ((|value| + 2) / 3)
  {
    EncodeData(EncryptShift(key, value))
  }

  /** `decrypt(key, value)` as written: base64-encodes `value`, then shifts back. */
  function Decrypt(key: string, value: seq<byte>): (r: seq<byte>)
    ensures |r| == 4 * ((|value| + 2) / 3)
  {
    DecryptShift(key, EncodeData(value))
  }

  /** Byte values 0 and 255 are shifted to the same value, so `encrypt` is not injective. */
  lemma EncryptCollapses(key: string)
    ensures EncryptShift(key, [0]) == EncryptShift(key, [255])
    ensures Encrypt(key, [0]) == Encrypt(key, [255])
  {
    assert EncryptShift(key, [0])[0] == EncryptShift(key, [255])[0];
  }

  /** For bytes below 255 and the same key length, the shift of `decrypt` undoes that of `encrypt`. */
  lemma DecryptShiftUndoesEncryptShift(key: string, v: seq<byte>)
    requires forall i :: 0 <= i < |v| ==> v[i] < 255
    ensures DecryptShift(key, EncryptShift(key, v)) == v
  {
    var m := |key| % 255;
    forall i | 0 <= i < |v| ensures DecryptShift(key, EncryptShift(key, v))[i] == v[i] {
      var t := v[i] + m;
      if t < 255 {
        assert (t % 255 + (255 - m)) % 255 == (v[i] as int + 255) % 255;
      } else {
        assert t % 255 == t - 255;
      }
    }
  }

  /** Base64 output is longer than its non-empty input. */
  lemma EncodingGrows(n: nat)
    requires n >= 1
    ensures 4 * ((n + 2) / 3) > n
  {
    var q := (n + 2) / 3;
    assert 3 * q >= n;
  }

  /** `decrypt(key, encrypt(key, v))` is never `v` for non-empty `v`: it is longer. */
  lemma DecryptNeverInverts(key: string, v: seq<byte>)
    requires |v| > 0
    ensures |Decrypt(key, Encrypt(key, v))| > |Encrypt(key, v)| > |v|
    ensures Decrypt(key, Encrypt(key, v)) != v
  {
    EncodingGrows(|v|);
    EncodingGrows(|Encrypt(key, v)|);
  }

  /** Both functions see the key only through `key.count % 255`. */
  lemma KeyOnlyThroughLength(k1: string, k2: string, v: seq<byte>)
    requires |k1| % 255 == |k2| % 255
    ensures Encrypt(k1, v) == Encrypt(k2, v)
    ensures Decrypt(k1, v) == Decrypt(k2, v)
  {
    assert EncryptShift(k1, v) == EncryptShift(k2, v);
  }

  /** Every byte moved up by `m` modulo 256. */
  function ShiftUp(v: seq<byte>, m: int): (r: seq<byte>)
    requires 0 <= m < 256
    ensures |r| == |v|
  {
    seq(|v|, i requires 0 <= i < |v| => (v[i] + m) % 256)
  }

  /** Every byte moved down by `m` modulo 256. */
  function ShiftDown(v: seq<byte>, m: int): (r: seq<byte>)
    requires 0 <= m < 256
    ensures |r| == |v|
  {
    seq(|v|, i requires 0 <= i < |v| => (v[i] + (256 - m)) % 256)
  }

  /** The intended cipher: the shift taken modulo 256, so no two bytes meet. */
  function EncryptFixed(key: string, value: seq<byte>): (r: seq<byte>)
    ensures |r| == 4 * ((|value| + 2) / 3)
  {
    EncodeData(ShiftUp(value, |key| % 256))
  }

  /** The intended decryption: base64-DECODE, then shift back modulo 256. */
  function DecryptFixed(key: string, value: seq<byte>): seq<byte> {
    ShiftDown(Decode(BytesText(value)), |key| % 256)
  }

  lemma UnshiftByte(x: byte, m: int)
    requires 0 <= m < 256
    ensures ((x + m) % 256 + (256 - m)) % 256 == x
  {
    if x + m >= 256 {
      assert (x + m) % 256 == x + m - 256;
    }
  }

  /** Shifting down undoes shifting up. */
  lemma ShiftDownUp(v: seq<byte>, m: int)
    requires 0 <= m < 256
    ensures ShiftDown(ShiftUp(v, m), m) == v
  {
    var r := ShiftDown(ShiftUp(v, m), m);
    forall i | 0 <= i < |v| ensures r[i] == v[i] {
      UnshiftByte(v[i], m);
    }
  }

  /** The intended pair round-trips every byte string. */
  lemma FixedRoundTrip(key: string, v: seq<byte>)
    ensures DecryptFixed(key, EncryptFixed(key, v)) == v
  {
    var m := |key| % 256;
    TextOfEncodeData(ShiftUp(v, m));
    DecodeEncode(ShiftUp(v, m));
    ShiftDownUp(v, m);
  }
}
