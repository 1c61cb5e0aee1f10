/**
 * The byte and text layout around WPS's sign-in encryption
 * (`WPSEncryption`, `generate_crypto_data`): the AES key string, the
 * zero-padded key and the IV derived from it, PKCS#7 padding (section 6.3
 * of RFC 5652) and the compact JSON plaintext. AES-CBC, RSA and base64
 * are foreign code and enter as parameters.
 */
module WpsCrypto {
  import opened Wrappers
  import opened Text
  import opened Percent

  // --------------------------------------------------------- AES key text

  /** The `n` consecutive characters from `first` on. */
  function CharRange(first: char, n: nat): (r: string)
    requires first as int + n <= 0xD800
    ensures |r| == n && forall j :: 0 <= j < n ==> r[j] as int == first as int + j
  {
    if n == 0 then [] else CharRange(first, n - 1) + [(first as int + n - 1) as char]
  }

  /** `string.ascii_lowercase + string.digits`: 'a' to 'z', then '0' to '9'. */
  const KeyAlphabet: string := CharRange('a', 26) + CharRange('0', 10)

  /**
   * `count` characters drawn from the alphabet; `pick(i)` is the index the
   * i-th `random.choice` lands on.
   */
  function RandomPart(count: nat, pick: nat -> nat): (r: string)
    ensures |r| == count
    ensures forall j :: 0 <= j < count ==> r[j] in KeyAlphabet
  {
    if count == 0 then [] else RandomPart(count - 1, pick) + [KeyAlphabet[pick(count - 1) % |KeyAlphabet|]]
  }

  /**
   * `generate_aes_key(length)`: `length - 10` random characters (none when
   * that is not positive) followed by the decimal Unix time `now`.
   */
  function GenerateAesKey(length: int, pick: nat -> nat, now: nat): (key: string)
    ensures |key| == (if length > 10 then length - 10 else 0) + |NatToDecimal(now)|
    ensures key[|key| - |NatToDecimal(now)|..] == NatToDecimal(now)
    ensures forall j :: 0 <= j < |key| - |NatToDecimal(now)| ==> key[j] in KeyAlphabet
  {
    RandomPart(if length > 10 then length - 10 else 0, pick) + NatToDecimal(now)
  }

  lemma AlphabetAscii(c: char)
    requires c in KeyAlphabet || IsDigit(c)
    ensures IsAscii(c)
  {
    if c in KeyAlphabet {
      var i :| 0 <= i < |KeyAlphabet| && KeyAlphabet[i] == c;
      if i < 26 {
        assert c == CharRange('a', 26)[i];
      } else {
        assert c == CharRange('0', 10)[i - 26];
      }
    }
  }

  /** Every generated key is ASCII, so its UTF-8 bytes are one per character. */
  lemma GeneratedKeyAscii(length: int, pick: nat -> nat, now: nat)
    ensures AllAscii(GenerateAesKey(length, pick, now))
  {
    var key := GenerateAesKey(length, pick, now);
    var d := NatToDecimal(now);
    forall j | 0 <= j < |key| ensures IsAscii(key[j]) {
      if j >= |key| - |d| {
        assert key[j] == d[j - (|key| - |d|)];
      }
    }
  }

  /** A 32-character key needs a ten-digit timestamp, i.e. a time between 2001 and 2286. */
  lemma AesKeyLength(pick: nat -> nat, now: nat)
    ensures |GenerateAesKey(32, pick, now)| == 32 <==> 1000000000 <= now < 10000000000
  {
    DecimalLengthIs(now, 10);
    assert Pow10(9) == 1000000000;
    assert Pow10(10) == 10000000000;
  }

  // ------------------------------------------------------------- key, IV

  function Zeros(n: nat): (r: seq<byte>)
    ensures |r| == n && forall j :: 0 <= j < n ==> r[j] == 0
  {
    if n == 0 then [] else Zeros(n - 1) + [0]
  }

  /** `key_bytes + b'\x00' * (32 - len(key_bytes))`: a negative count adds nothing. */
  function PaddedKey(key: string): (r: seq<byte>)
    ensures |Utf8Encode(key)| <= 32 ==> |r| == 32
    ensures |r| >= |Utf8Encode(key)|
    ensures r[..|Utf8Encode(key)|] == Utf8Encode(key)
    ensures forall j :: |Utf8Encode(key)| <= j < |r| ==> r[j] == 0
    ensures |Utf8Encode(key)| > 32 ==> r == Utf8Encode(key)
  {
    var kb := Utf8Encode(key);
    kb + Zeros(if |kb| < 32 then 32 - |kb| else 0)
  }

  /** `aes_key[:16].encode('utf-8')`. */
  function Iv(key: string): seq<byte> {
    Utf8Encode(key[..if |key| < 16 then |key| else 16])
  }

  /** The cipher constructor refuses a key that is not 32 bytes and an IV that is not 16. */
  datatype CipherError = BadKeyLength(keyBytes: nat) | BadIvLength(ivBytes: nat)

  function CipherParams(key: string): (r: Result<(seq<byte>, seq<byte>), CipherError>)
    ensures r.Ok? <==> |Utf8Encode(key)| <= 32 && |Iv(key)| == 16
    ensures r.Ok? ==> r.value == (PaddedKey(key), Iv(key))
  {
    var k := PaddedKey(key);
    var iv := Iv(key);
    if |k| != 32 then Err(BadKeyLength(|k|))
    else if |iv| != 16 then Err(BadIvLength(|iv|))
    else Ok((k, iv))
  }

  lemma ConsAppend(a: string, b: string)
    requires a != []
    ensures a + b != [] && (a + b)[0] == a[0] && (a + b)[1..] == a[1..] + b
  {
  }

  lemma {:induction false} Utf8EncodeAppend(a: string, b: string)
    ensures Utf8Encode(a + b) == Utf8Encode(a) + Utf8Encode(b)
    decreases |a|
  {
    if a != [] {
      ConsAppend(a, b);
      Utf8EncodeAppend(a[1..], b);
      assert Utf8Encode(a + b) == EncodeChar(a[0]) + Utf8Encode(a[1..] + b);
    } else {
      assert a + b == b;
    }
  }

  lemma {:induction false} Utf8EncodeAscii(s: string)
    requires AllAscii(s)
    ensures |Utf8Encode(s)| == |s|
    ensures forall j :: 0 <= j < |s| ==> Utf8Encode(s)[j] == s[j] as int
    decreases |s|
  {
    if s != [] {
      Utf8EncodeAscii(s[1..]);
    }
  }

  /**
   * An ASCII key of 16 to 32 characters is accepted: the key is its bytes
   * zero-padded to 32 and the IV is the bytes of its first 16 characters.
   */
  lemma AsciiKeyAccepted(key: string)
    requires AllAscii(key) && 16 <= |key| <= 32
    ensures CipherParams(key).Ok?
    ensures forall j :: 0 <= j < |key| ==> CipherParams(key).value.0[j] == key[j] as int
    ensures forall j :: |key| <= j < 32 ==> CipherParams(key).value.0[j] == 0
    ensures forall j :: 0 <= j < 16 ==> CipherParams(key).value.1[j] == key[j] as int
  {
    Utf8EncodeAscii(key);
    Utf8EncodeAscii(key[..16]);
    var k := PaddedKey(key);
    forall j | 0 <= j < |key| ensures k[j] == key[j] as int {
      assert k[..|key|][j] == Utf8Encode(key)[j];
    }
  }

  /** A key generated for 32 characters at a ten-digit time needs no padding. */
  lemma GeneratedKeyAccepted(pick: nat -> nat, now: nat)
    requires 1000000000 <= now < 10000000000
    ensures var key := GenerateAesKey(32, pick, now);
      CipherParams(key) == Ok((Utf8Encode(key), Utf8Encode(key[..16])))
  {
    var key := GenerateAesKey(32, pick, now);
    AesKeyLength(pick, now);
    GeneratedKeyAscii(32, pick, now);
    assert PaddedKey(key) == Utf8Encode(key) + Zeros(0);
    assert Utf8Encode(key) + Zeros(0) == Utf8Encode(key);
  }

  // ---------------------------------------------------------------- PKCS#7

  const BlockSize := 16

  /** `pad(data, block_size)`: n copies of the byte n, 1 <= n <= block size. */
  function Pkcs7Pad(data: seq<byte>, blockSize: nat): (r: seq<byte>)
    requires 0 < blockSize < 256
    ensures |r| % blockSize == 0
    ensures |data| < |r| <= |data| + blockSize
    ensures r[..|data|] == data
  {
    var n := blockSize - |data| % blockSize;
    PadLength(|data|, blockSize);
    data + seq(n, _ => n)
  }

  lemma PadLength(len: nat, blockSize: nat)
    requires 0 < blockSize
    ensures (len + (blockSize - len % blockSize)) % blockSize == 0
  {
    var q := len / blockSize;
    assert len == q * blockSize + len % blockSize;
    assert len + (blockSize - len % blockSize) == (q + 1) * blockSize;
    MultipleMod(q + 1, blockSize);
  }

  lemma MultipleMod(k: nat, b: nat)
    requires 0 < b
    ensures (k * b) % b == 0
  {
    var x := k * b;
    var q := x / b;
    var m := x % b;
    assert x == q * b + m;
    var c := k - q;
    assert c * b == m by {
      assert c * b == k * b - q * b;
    }
    if c >= 1 {
      assert false;
    } else if c <= -1 {
      assert false;
    }
  }

  /** The matching `unpad`: refuse a bad length, a bad count or an inconsistent pad. */
  function Pkcs7Unpad(p: seq<byte>, blockSize: nat): (r: Option<seq<byte>>)
    requires 0 < blockSize < 256
    ensures r.Some? ==> |r.value| < |p| && p[..|r.value|] == r.value
  {
    if |p| == 0 || |p| % blockSize != 0 then None
    else
      var n := p[|p| - 1];
      if n < 1 || n > blockSize || n > |p| then None
      else if forall j :: |p| - n <= j < |p| ==> p[j] == n then Some(p[..|p| - n])
      else None
  }

  /** Unpadding inverts padding. */
  lemma PadUnpad(data: seq<byte>, blockSize: nat)
    requires 0 < blockSize < 256
    ensures Pkcs7Unpad(Pkcs7Pad(data, blockSize), blockSize) == Some(data)
  {
    var p := Pkcs7Pad(data, blockSize);
    var n := blockSize - |data| % blockSize;
    assert p[|p| - 1] == n;
    assert forall j :: |p| - n <= j < |p| ==> p[j] == n;
    assert p[..|p| - n] == data;
  }

  /**
   * `aes_encrypt`: the foreign cipher sees the padded key, the IV and the
   * padded UTF-8 plaintext; its output is base64-encoded.
   */
  function AesEncrypt(plain: string, key: string,
                      cbc: (seq<byte>, seq<byte>, seq<byte>) -> seq<byte>, b64: seq<byte> -> string): (r: Result<string, CipherError>)
    ensures r.Ok? <==> CipherParams(key).Ok?
    ensures r.Ok? ==> r.value == b64(cbc(PaddedKey(key), Iv(key), Pkcs7Pad(Utf8Encode(plain), BlockSize)))
  {
    match CipherParams(key)
    case Err(e) => Err(e)
    case Ok((k, iv)) => Ok(b64(cbc(k, iv, Pkcs7Pad(Utf8Encode(plain), BlockSize))))
  }

  // -------------------------------------------------------------- plaintext

  const DefaultPlatform := 64
  const PlainHead := "{\"user_id\":"
  const PlainMid := ",\"platform\":"

  /** `json.dumps({"user_id": u, "platform": p}, separators=(',', ':'))`. */
  function Plaintext(userId: int, platform: int): (s: string)
    ensures |s| > |PlainHead| && s[..|PlainHead|] == PlainHead && s[|s| - 1] == '}'
  {
    PlainHead + IntToDecimal(userId) + PlainMid + IntToDecimal(platform) + "}"
  }

  predicate IsNumberChar(c: char) { c == '-' || IsDigit(c) }

  /** Length of the leading run of sign and digit characters. */
  function NumberRun(s: string): (n: nat)
    ensures n <= |s|
    ensures forall j :: 0 <= j < n ==> IsNumberChar(s[j])
    ensures n < |s| ==> !IsNumberChar(s[n])
  {
    if s == [] || !IsNumberChar(s[0]) then 0 else 1 + NumberRun(s[1..])
  }

  /** Reads the two integers back out of a plaintext. */
  function ReadPlaintext(s: string): Option<(int, int)> {
    if |s| < |PlainHead| + 1 || s[..|PlainHead|] != PlainHead || s[|s| - 1] != '}' then None
    else
      var body := s[|PlainHead|..|s| - 1];
      var n := NumberRun(body);
      var rest := body[n..];
      if |rest| < |PlainMid| || rest[..|PlainMid|] != PlainMid then None
      else
        match (ParseSigned(body[..n]), ParseSigned(rest[|PlainMid|..]))
        case (Some(u), Some(p)) => Some((u, p))
        case _ => None
  }

  lemma IntToDecimalChars(i: int)
    ensures forall j :: 0 <= j < |IntToDecimal(i)| ==> IsNumberChar(IntToDecimal(i)[j])
  {
    if i < 0 {
      var d := NatToDecimal(-i);
      forall j | 1 <= j < |IntToDecimal(i)| ensures IsDigit(IntToDecimal(i)[j]) {
        assert IntToDecimal(i)[j] == d[j - 1];
      }
    }
  }

  lemma {:induction false} NumberRunPrefix(a: string, b: string)
    requires forall j :: 0 <= j < |a| ==> IsNumberChar(a[j])
    requires b != [] && !IsNumberChar(b[0])
    ensures NumberRun(a + b) == |a|
    decreases |a|
  {
    if a != [] {
      assert (a + b)[1..] == a[1..] + b;
      NumberRunPrefix(a[1..], b);
    } else {
      assert a + b == b;
    }
  }

  /** The plaintext is canonical: the user id and platform read back from it. */
  lemma PlaintextRoundTrip(userId: int, platform: int)
    ensures ReadPlaintext(Plaintext(userId, platform)) == Some((userId, platform))
  {
    var s := Plaintext(userId, platform);
    var u := IntToDecimal(userId);
    var p := IntToDecimal(platform);
    var body := s[|PlainHead|..|s| - 1];
    assert body == u + (PlainMid + p);
    IntToDecimalChars(userId);
    NumberRunPrefix(u, PlainMid + p);
    assert body[..|u|] == u;
    assert body[|u|..] == PlainMid + p;
    assert (PlainMid + p)[|PlainMid|..] == p;
    ParseIntToDecimal(userId);
    ParseIntToDecimal(platform);
  }
}
