/** The version-04 ZEGOCLOUD token of `zegoc-cloud-assistant.ts`:
    argument checks, the AES variant picked from the key length, the
    token information, the big-endian binary frame and the final
    "04" + Base64 string.

    `Math.random`, the clock and AES itself are parameters: random draws
    are reals in [0, 1), the clock is the current time in milliseconds,
    and the cipher is a function from the token information, key bytes
    and IV bytes to ciphertext bytes.  JavaScript numbers are modelled
    as integers. */
module ZegoToken {
  import opened Wrappers
  import opened Strings
  import opened Base64

  // Lengths of a string: JavaScript's `length` counts UTF-16 code units,
  // `Buffer.from(s)` writes UTF-8.

  function CharUtf16Length(c: char): nat {
    if c as int < 0x10000 then 1 else 2
  }

  function Utf16Length(s: string): nat {
    if |s| == 0 then 0 else Utf16Length(s[..|s| - 1]) + CharUtf16Length(s[|s| - 1])
  }

  /** The UTF-8 bytes of one Unicode scalar value. */
  function CharUtf8(c: char): (bs: seq<byte>)
    ensures 1 <= |bs| <= 4
    ensures |bs| == 1 <==> c as int < 0x80
    ensures |bs| >= CharUtf16Length(c)
  {
    var cp := c as int;
    if cp < 0x80 then [cp]
    else if cp < 0x800 then [0xC0 + cp / 64, 0x80 + cp % 64]
    else if cp < 0x10000 then [0xE0 + cp / 4096, 0x80 + (cp / 64) % 64, 0x80 + cp % 64]
    else [0xF0 + cp / 262144, 0x80 + (cp / 4096) % 64, 0x80 + (cp / 64) % 64, 0x80 + cp % 64]
  }

  /** `Buffer.from(s)`. */
  function Utf8Encode(s: string): (bs: seq<byte>)
    ensures |bs| >= Utf16Length(s)
  {
    if |s| == 0 then [] else Utf8Encode(s[..|s| - 1]) + CharUtf8(s[|s| - 1])
  }

  predicate IsAscii(s: string) {
    forall k :: 0 <= k < |s| ==> s[k] as int < 0x80
  }

  /** An ASCII string has as many UTF-8 bytes as UTF-16 units, and each
      byte is its character's code. */
  lemma {:induction false} AsciiBytes(s: string)
    requires IsAscii(s)
    ensures |Utf8Encode(s)| == |s| == Utf16Length(s)
    ensures forall k :: 0 <= k < |s| ==> Utf8Encode(s)[k] == s[k] as int
  {
    if |s| > 0 {
      AsciiBytes(s[..|s| - 1]);
    }
  }

  /** A string with a character beyond ASCII has more UTF-8 bytes than
      UTF-16 units. */
  lemma {:induction false} NonAsciiLonger(s: string)
    requires !IsAscii(s)
    ensures |Utf8Encode(s)| > Utf16Length(s)
  {
    var init := s[..|s| - 1];
    if IsAscii(init) {
      assert s[|s| - 1] as int >= 0x80 by {
        var k :| 0 <= k < |s| && s[k] as int >= 0x80;
        if k < |s| - 1 {
          assert init[k] == s[k];
        }
      }
    } else {
      NonAsciiLonger(init);
    }
  }

  // getAlgorithm

  /** `getAlgorithm(key)`: AES-128, -192 or -256 in CBC mode for a key of
      16, 24 or 32 UTF-8 bytes; any other length throws. */
  function GetAlgorithm(key: string): (r: Result<string, string>)
    ensures r.Success? <==> |Utf8Encode(key)| in {16, 24, 32}
    ensures |Utf8Encode(key)| == 16 ==> r == Success("aes-128-cbc")
    ensures |Utf8Encode(key)| == 24 ==> r == Success("aes-192-cbc")
    ensures |Utf8Encode(key)| == 32 ==> r == Success("aes-256-cbc")
    ensures r.Failure? ==> r.error == "Invalid key length: " + NatToString(|Utf8Encode(key)|)
  {
    var n := |Utf8Encode(key)|;
    if n == 16 then Success("aes-128-cbc")
    else if n == 24 then Success("aes-192-cbc")
    else if n == 32 then Success("aes-256-cbc")
    else Failure("Invalid key length: " + NatToString(n))
  }

  // Argument checks of generateToken04

  /** A JavaScript integer as a template literal writes it. */
  function IntToString(i: int): (s: string)
    ensures i < 0 <==> |s| > 0 && s[0] == '-'
  {
    if i < 0 then "-" + NatToString(-i) else NatToString(i)
  }

  /** A zero argument is written as "0" in the messages. */
  lemma IntToStringZero()
    ensures IntToString(0) == "0"
  {
    assert NatToString(0) == [Digit(0)];
  }

  /** The four checks as written: `appId` non-zero, `userId` non-empty,
      `secret` 32 UTF-16 units long, `effectiveTimeInSeconds` non-zero.
      The first one that fails throws, with a message naming it. */
  function CheckArgsAsWritten(appId: int, userId: string, secret: string, effective: int): (r: Result<(), string>)
    ensures r.Success? <==> appId != 0 && userId != "" && Utf16Length(secret) == 32 && effective != 0
    ensures appId == 0 ==> r == Failure("appID invalid: 0")
    ensures appId != 0 && userId == "" ==> r == Failure("userId invalid: ")
    ensures appId != 0 && userId != "" && Utf16Length(secret) != 32 ==>
      r == Failure("secret must be a 32 byte string, got length: " + NatToString(Utf16Length(secret)))
    ensures appId != 0 && userId != "" && Utf16Length(secret) == 32 && effective == 0 ==>
      r == Failure("effectiveTimeInSeconds invalid: 0")
  {
    if appId == 0 then
      IntToStringZero();
      assert "appID invalid: " + "0" == "appID invalid: 0";
      Failure("appID invalid: " + IntToString(appId))
    else if userId == "" then
      assert "userId invalid: " + userId == "userId invalid: ";
      Failure("userId invalid: " + userId)
    else if Utf16Length(secret) != 32 then
      Failure("secret must be a 32 byte string, got length: " + NatToString(Utf16Length(secret)))
    else if effective == 0 then
      IntToStringZero();
      assert "effectiveTimeInSeconds invalid: " + "0" == "effectiveTimeInSeconds invalid: 0";
      Failure("effectiveTimeInSeconds invalid: " + IntToString(effective))
    else Success(())
  }

  /** The same checks with the secret measured in bytes, as its message
      says ("a 32 byte string") and as `getAlgorithm` measures it. */
  function CheckArgs(appId: int, userId: string, secret: string, effective: int): (r: Result<(), string>)
    ensures r.Success? <==> appId != 0 && userId != "" && |Utf8Encode(secret)| == 32 && effective != 0
    ensures appId == 0 ==> r == Failure("appID invalid: 0")
    ensures appId != 0 && userId == "" ==> r == Failure("userId invalid: ")
    ensures appId != 0 && userId != "" && |Utf8Encode(secret)| != 32 ==>
      r == Failure("secret must be a 32 byte string, got length: " + NatToString(|Utf8Encode(secret)|))
    ensures appId != 0 && userId != "" && |Utf8Encode(secret)| == 32 && effective == 0 ==>
      r == Failure("effectiveTimeInSeconds invalid: 0")
    ensures r.Success? ==> GetAlgorithm(secret) == Success("aes-256-cbc")
  {
    if appId == 0 then
      IntToStringZero();
      assert "appID invalid: " + "0" == "appID invalid: 0";
      Failure("appID invalid: " + IntToString(appId))
    else if userId == "" then
      assert "userId invalid: " + userId == "userId invalid: ";
      Failure("userId invalid: " + userId)
    else if |Utf8Encode(secret)| != 32 then
      Failure("secret must be a 32 byte string, got length: " + NatToString(|Utf8Encode(secret)|))
    else if effective == 0 then
      IntToStringZero();
      assert "effectiveTimeInSeconds invalid: " + "0" == "effectiveTimeInSeconds invalid: 0";
      Failure("effectiveTimeInSeconds invalid: " + IntToString(effective))
    else Success(())
  }

  /** The check as written lets through a secret `getAlgorithm` then
      rejects: 31 'a's and one 'é' are 32 UTF-16 units but 33 bytes. */
  lemma SecretCheckCountsUnits()
    ensures var secret := seq(31, _ => 'a') + ['\U{00E9}'];
      && CheckArgsAsWritten(1, "u", secret, 3600).Success?
      && GetAlgorithm(secret).Failure?
  {
    var a := seq(31, _ => 'a');
    var secret := a + ['\U{00E9}'];
    AsciiBytes(a);
    assert secret[..|secret| - 1] == a;
    assert |Utf8Encode(secret)| == 33;
  }

  /** The two checks agree on every ASCII secret, which is what ZEGOCLOUD
      issues. */
  lemma ChecksAgreeOnAscii(appId: int, userId: string, secret: string, effective: int)
    requires IsAscii(secret)
    ensures CheckArgsAsWritten(appId, userId, secret, effective) == CheckArgs(appId, userId, secret, effective)
  {
    AsciiBytes(secret);
  }

  /** Under the check as written, `getAlgorithm` fails exactly for a
      secret outside ASCII. */
  lemma AsWrittenFailsOnlyBeyondAscii(secret: string)
    requires Utf16Length(secret) == 32
    ensures GetAlgorithm(secret).Success? <==> IsAscii(secret)
  {
    if IsAscii(secret) {
      AsciiBytes(secret);
    } else {
      NonAsciiLonger(secret);
    }
  }

  // Random parts

  const Int32Min := -0x8000_0000
  const Int32Max := 0x7FFF_FFFF

  /** `makeNonce()` as written: `RndNum(a, b)` computes
      `Math.ceil((a + (b - a)) * Math.random())`, and `a + (b - a)` is
      just `b`, so the draw scales `b` alone. */
  function NonceAsWritten(r: real): (n: int)
    requires 0.0 <= r < 1.0
    ensures 0 <= n <= Int32Max
    ensures n == 0 <==> r == 0.0
  {
    var x := ((Int32Min + (Int32Max - Int32Min)) as real) * r;
    -((-x).Floor)
  }

  /** `makeNonce()` as its comment and `RndNum`'s describe it: a number in
      the int32 range from `a` to `b`, `Math.ceil(a + (b - a) * r)`. */
  function Nonce(r: real): (n: int)
    requires 0.0 <= r < 1.0
    ensures Int32Min <= n <= Int32Max
    ensures n < 0 <==> (Int32Max - Int32Min) as real * r <= Int32Max as real
  {
    var x := Int32Min as real + (Int32Max - Int32Min) as real * r;
    -((-x).Floor)
  }

  /** The nonce as written never takes the negative half of the int32
      range: a quarter draw gives 2^29 where the range from `a` to `b`
      gives -2^30. */
  lemma NonceMissesNegativeHalf()
    ensures NonceAsWritten(0.25) == 0x2000_0000
    ensures Nonce(0.25) == -0x4000_0000
    ensures forall r :: 0.0 <= r < 1.0 ==> NonceAsWritten(r) >= 0
  {
  }

  /** The IV alphabet "0123456789abcdefghijklmnopqrstuvwxyz". */
  function IvChar(k: nat): (c: char)
    requires k < 36
    ensures c as int < 0x80
    ensures ('0' <= c <= '9') || ('a' <= c <= 'z')
  {
    if k < 10 then ('0' as int + k) as char else ('a' as int + (k - 10)) as char
  }

  predicate Draws(rs: seq<real>) {
    forall k :: 0 <= k < |rs| ==> 0.0 <= rs[k] < 1.0
  }

  /** `makeRandomIv()`: one alphabet character per draw,
      `Math.floor(r * 36)`. */
  function RandomIv(rs: seq<real>): (iv: string)
    requires |rs| == 16 && Draws(rs)
    ensures |iv| == 16 && IsAscii(iv)
    ensures forall k :: 0 <= k < 16 ==> iv[k] == IvChar((rs[k] * 36.0).Floor)
  {
    seq(16, k requires 0 <= k < 16 => IvChar((rs[k] * 36.0).Floor))
  }

  // The binary frame

  function Pow256(w: nat): (p: nat)
    ensures p >= 1
  {
    if w == 0 then 1 else 256 * Pow256(w - 1)
  }

  /** `n` as `w` bytes, most significant first, keeping `n mod 256^w`
      as `DataView.setUint16` and `setBigInt64` do. */
  function BigEndian(n: nat, w: nat): (bs: seq<byte>)
    ensures |bs| == w
  {
    if w == 0 then [] else BigEndian(n / 256, w - 1) + [n % 256]
  }

  function FromBigEndian(bs: seq<byte>): (n: nat)
    ensures n < Pow256(|bs|)
  {
    if |bs| == 0 then 0 else FromBigEndian(bs[..|bs| - 1]) * 256 + bs[|bs| - 1]
  }

  /** Reading back the bytes gives the number modulo `256^w`. */
  lemma {:induction false} BigEndianRoundTrip(n: nat, w: nat)
    ensures FromBigEndian(BigEndian(n, w)) == n % Pow256(w)
  {
    if w > 0 {
      var bs := BigEndian(n, w);
      assert bs[..|bs| - 1] == BigEndian(n / 256, w - 1);
      BigEndianRoundTrip(n / 256, w - 1);
      ModSplit(n, Pow256(w - 1));
    }
  }

  /** `(n / 256) % p * 256 + n % 256 == n % (256 * p)`. */
  lemma ModSplit(n: nat, p: nat)
    requires p >= 1
    ensures ((n / 256) % p) * 256 + n % 256 == n % (256 * p)
  {
    var q, r := n / 256, n % 256;
    var q1, r1 := q / p, q % p;
    assert n == (256 * p) * q1 + (r1 * 256 + r) by {
      assert n == q * 256 + r;
      assert q == p * q1 + r1;
      assert q * 256 == (p * q1) * 256 + r1 * 256;
    }
    assert r1 * 256 + r < 256 * p by {
      assert r1 <= p - 1;
      assert r1 * 256 <= (p - 1) * 256;
    }
    DivModUnique(n, 256 * p, q1, r1 * 256 + r);
  }

  /** Quotient and remainder are unique. */
  lemma DivModUnique(n: int, d: int, q: int, r: int)
    requires d > 0 && 0 <= r < d && n == d * q + r
    ensures n / d == q && n % d == r
  {
    var q0, r0 := n / d, n % d;
    var k := q0 - q;
    assert d * k == r - r0 by {
      assert d * q0 + r0 == d * q + r;
      assert d * k == d * q0 - d * q;
    }
    if k >= 1 {
      MulAtLeast(d, k);
    } else if k <= -1 {
      MulAtLeast(d, -k);
    }
  }

  lemma {:induction false} MulAtLeast(d: int, k: int)
    requires d > 0 && k >= 1
    ensures d * k >= d
    decreases k
  {
    if k > 1 {
      MulAtLeast(d, k - 1);
      assert d * k == d * (k - 1) + d;
    }
  }

  const TwoTo63 := 0x8000_0000_0000_0000
  const TwoTo64 := 0x1_0000_0000_0000_0000

  lemma Pow256Values()
    ensures Pow256(2) == 65536 && Pow256(8) == TwoTo64
  {
  }

  /** `setBigInt64(0, BigInt(expire), false)`: two's complement in eight
      bytes; `getBigInt64` reads it back as a signed value. */
  function Int64Bytes(v: int): (bs: seq<byte>)
    ensures |bs| == 8
  {
    BigEndian(v % TwoTo64, 8)
  }

  function ReadInt64(bs: seq<byte>): int
    requires |bs| == 8
  {
    var u := FromBigEndian(bs);
    if u >= TwoTo63 then u - TwoTo64 else u
  }

  lemma Int64RoundTrip(v: int)
    requires -TwoTo63 <= v < TwoTo63
    ensures ReadInt64(Int64Bytes(v)) == v
  {
    var u := if v < 0 then v + TwoTo64 else v;
    DivModUnique(v, TwoTo64, if v < 0 then -1 else 0, u);
    DivModUnique(u, TwoTo64, 0, u);
    BigEndianRoundTrip(u, 8);
    Pow256Values();
    assert FromBigEndian(Int64Bytes(v)) == u;
  }

  /** The frame: expiry (8 bytes), IV length (2), IV, ciphertext length
      (2), ciphertext.  The IV length is `iv.length` in UTF-16 units and
      the IV is written as UTF-8; both lengths are cut to 16 bits. */
  function Frame(expire: int, iv: string, ct: seq<byte>): (f: seq<byte>)
    ensures |f| == 12 + |Utf8Encode(iv)| + |ct|
  {
    Int64Bytes(expire) + BigEndian(Utf16Length(iv), 2) + Utf8Encode(iv) + BigEndian(|ct|, 2) + ct
  }

  datatype Fields = Fields(expire: int, iv: seq<byte>, ciphertext: seq<byte>)

  /** Reads a frame back; `None` when the lengths do not fit. */
  function ParseFrame(f: seq<byte>): (r: Option<Fields>)
  {
    if |f| < 10 then None
    else
      var ivLen := FromBigEndian(f[8..10]);
      if |f| < 12 + ivLen then None
      else
        var ctLen := FromBigEndian(f[10 + ivLen..12 + ivLen]);
        if |f| != 12 + ivLen + ctLen then None
        else Some(Fields(ReadInt64(f[..8]), f[10..10 + ivLen], f[12 + ivLen..]))
  }

  /** A frame assembled from its five parts reads back as them when the
      two length fields hold the lengths of the parts they announce. */
  lemma ParseParts(e: seq<byte>, il: seq<byte>, ivb: seq<byte>, cl: seq<byte>, ct: seq<byte>)
    requires |e| == 8 && |il| == 2 && |cl| == 2
    requires FromBigEndian(il) == |ivb| && FromBigEndian(cl) == |ct|
    ensures ParseFrame(e + il + ivb + cl + ct) == Some(Fields(ReadInt64(e), ivb, ct))
  {
    var f := e + il + ivb + cl + ct;
    assert f[..8] == e;
    assert f[8..10] == il;
    assert f[10..10 + |ivb|] == ivb;
    assert f[10 + |ivb|..12 + |ivb|] == cl;
    assert f[12 + |ivb|..] == ct;
  }

  /** The frame reads back when the expiry fits in 64 bits, the IV is
      ASCII (so its two lengths agree) and both lengths fit in 16 bits. */
  lemma FrameRoundTrip(expire: int, iv: string, ct: seq<byte>)
    requires -TwoTo63 <= expire < TwoTo63
    requires IsAscii(iv) && |iv| < 65536 && |ct| < 65536
    ensures ParseFrame(Frame(expire, iv, ct)) == Some(Fields(expire, Utf8Encode(iv), ct))
  {
    AsciiBytes(iv);
    Pow256Values();
    BigEndianRoundTrip(Utf16Length(iv), 2);
    DivModUnique(Utf16Length(iv), 65536, 0, Utf16Length(iv));
    BigEndianRoundTrip(|ct|, 2);
    DivModUnique(|ct|, 65536, 0, |ct|);
    Int64RoundTrip(expire);
    ParseParts(Int64Bytes(expire), BigEndian(Utf16Length(iv), 2), Utf8Encode(iv), BigEndian(|ct|, 2), ct);
  }

  // generateToken04

  /** The token information serialised with `JSON.stringify` and
      encrypted; `payload || ""` turns a missing payload into "". */
  datatype TokenInfo = TokenInfo(appId: int, userId: string, nonce: int, ctime: int, expire: int, payload: string)

  function MakeTokenInfo(appId: int, userId: string, nonce: int, nowMs: int, effective: int, payload: Option<string>): (t: TokenInfo)
    ensures t.ctime * 1000 <= nowMs < t.ctime * 1000 + 1000
    ensures t.expire - t.ctime == effective
    ensures t.payload == if payload.Some? then payload.value else ""
  {
    var ctime := nowMs / 1000;
    TokenInfo(appId, userId, nonce, ctime, ctime + effective, payload.GetOr(""))
  }

  /** `aesEncrypt`: the named AES-CBC variant with PKCS#7 padding applied
      to the JSON of the token information, under the key and IV bytes. */
  type Cipher = (string, TokenInfo, seq<byte>, seq<byte>) -> seq<byte>

  /** The token text: "04" and the Base64 of the frame around the
      ciphertext. */
  function Seal(algorithm: string, secret: string, info: TokenInfo, iv: string, aes: Cipher): (token: string)
    ensures |token| >= 2 && token[..2] == "04"
    ensures Decode(token[2..]) == Some(Frame(info.expire, iv, aes(algorithm, info, Utf8Encode(secret), Utf8Encode(iv))))
  {
    var frame := Frame(info.expire, iv, aes(algorithm, info, Utf8Encode(secret), Utf8Encode(iv)));
    DecodeEncode(frame);
    assert ("04" + Encode(frame))[2..] == Encode(frame);
    "04" + Encode(frame)
  }

  /** `generateToken04` as written: the checks count the secret in UTF-16
      units, the nonce is `ceil(b * r)`, and `getAlgorithm` throws inside
      `aesEncrypt` when the secret is not 16, 24 or 32 UTF-8 bytes. */
  function GenerateToken04(appId: int, userId: string, secret: string, effective: int, payload: Option<string>,
                           nowMs: int, nonceDraw: real, ivDraws: seq<real>, aes: Cipher): (r: Result<string, string>)
    requires 0.0 <= nonceDraw < 1.0 && |ivDraws| == 16 && Draws(ivDraws)
    ensures r.Success? <==> CheckArgsAsWritten(appId, userId, secret, effective).Success? && IsAscii(secret)
    ensures CheckArgsAsWritten(appId, userId, secret, effective).Failure? ==>
      r == Failure(CheckArgsAsWritten(appId, userId, secret, effective).error)
    ensures CheckArgsAsWritten(appId, userId, secret, effective).Success? && !IsAscii(secret) ==>
      r == Failure("Invalid key length: " + NatToString(|Utf8Encode(secret)|))
    ensures r.Success? ==>
      var info := MakeTokenInfo(appId, userId, NonceAsWritten(nonceDraw), nowMs, effective, payload);
      var iv := RandomIv(ivDraws);
      && |r.value| >= 2 && r.value[..2] == "04"
      && Decode(r.value[2..]) == Some(Frame(info.expire, iv, aes("aes-256-cbc", info, Utf8Encode(secret), Utf8Encode(iv))))
  {
    var _ :- CheckArgsAsWritten(appId, userId, secret, effective);
    var info := MakeTokenInfo(appId, userId, NonceAsWritten(nonceDraw), nowMs, effective, payload);
    var iv := RandomIv(ivDraws);
    AsWrittenFailsOnlyBeyondAscii(secret);
    var algorithm :- GetAlgorithm(secret);
    AsciiBytes(secret);
    Success(Seal(algorithm, secret, info, iv, aes))
  }

  /** `generateToken04` with both findings corrected: the secret is
      counted in bytes and the nonce is drawn over the whole int32 range. */
  function GenerateToken04Corrected(appId: int, userId: string, secret: string, effective: int, payload: Option<string>,
                                    nowMs: int, nonceDraw: real, ivDraws: seq<real>, aes: Cipher): (r: Result<string, string>)
    requires 0.0 <= nonceDraw < 1.0 && |ivDraws| == 16 && Draws(ivDraws)
    ensures r.Success? <==> CheckArgs(appId, userId, secret, effective).Success?
    ensures r.Failure? ==> r == Failure(CheckArgs(appId, userId, secret, effective).error)
    ensures r.Success? ==>
      var info := MakeTokenInfo(appId, userId, Nonce(nonceDraw), nowMs, effective, payload);
      var iv := RandomIv(ivDraws);
      && |r.value| >= 2 && r.value[..2] == "04"
      && Decode(r.value[2..]) == Some(Frame(info.expire, iv, aes("aes-256-cbc", info, Utf8Encode(secret), Utf8Encode(iv))))
  {
    var _ :- CheckArgs(appId, userId, secret, effective);
    var info := MakeTokenInfo(appId, userId, Nonce(nonceDraw), nowMs, effective, payload);
    var iv := RandomIv(ivDraws);
    var algorithm := GetAlgorithm(secret).value;
    Success(Seal(algorithm, secret, info, iv, aes))
  }

  /** The two versions agree on every ASCII secret except in the nonce:
      given the same nonce they would write the same token. */
  lemma CorrectedAgreesOnAscii(appId: int, userId: string, secret: string, effective: int, payload: Option<string>,
                               nowMs: int, nonceDraw: real, ivDraws: seq<real>, aes: Cipher)
    requires 0.0 <= nonceDraw < 1.0 && |ivDraws| == 16 && Draws(ivDraws)
    requires IsAscii(secret)
    ensures GenerateToken04(appId, userId, secret, effective, payload, nowMs, nonceDraw, ivDraws, aes).Success?
        <==> GenerateToken04Corrected(appId, userId, secret, effective, payload, nowMs, nonceDraw, ivDraws, aes).Success?
  {
    ChecksAgreeOnAscii(appId, userId, secret, effective);
  }

  /** What a client reads out of a token: the expiry the server set, the
      16-byte IV and the ciphertext. */
  lemma TokenReadsBack(appId: int, userId: string, secret: string, effective: int, payload: Option<string>,
                       nowMs: int, nonceDraw: real, ivDraws: seq<real>, aes: Cipher)
    requires 0.0 <= nonceDraw < 1.0 && |ivDraws| == 16 && Draws(ivDraws)
    requires GenerateToken04(appId, userId, secret, effective, payload, nowMs, nonceDraw, ivDraws, aes).Success?
    requires var info := MakeTokenInfo(appId, userId, NonceAsWritten(nonceDraw), nowMs, effective, payload);
      -TwoTo63 <= info.expire < TwoTo63
      && |aes("aes-256-cbc", info, Utf8Encode(secret), Utf8Encode(RandomIv(ivDraws)))| < 65536
    ensures var token := GenerateToken04(appId, userId, secret, effective, payload, nowMs, nonceDraw, ivDraws, aes).value;
      var info := MakeTokenInfo(appId, userId, NonceAsWritten(nonceDraw), nowMs, effective, payload);
      var iv := RandomIv(ivDraws);
      && Decode(token[2..]).Some?
      && ParseFrame(Decode(token[2..]).value)
         == Some(Fields(nowMs / 1000 + effective, Utf8Encode(iv), aes("aes-256-cbc", info, Utf8Encode(secret), Utf8Encode(iv))))
      && |Utf8Encode(iv)| == 16
  {
    var info := MakeTokenInfo(appId, userId, NonceAsWritten(nonceDraw), nowMs, effective, payload);
    var iv := RandomIv(ivDraws);
    var ct := aes("aes-256-cbc", info, Utf8Encode(secret), Utf8Encode(iv));
    var token := GenerateToken04(appId, userId, secret, effective, payload, nowMs, nonceDraw, ivDraws, aes).value;
    var f := Frame(info.expire, iv, ct);
    assert Decode(token[2..]) == Some(f);
    assert info.expire == nowMs / 1000 + effective;
    AsciiBytes(iv);
    FrameRoundTrip(info.expire, iv, ct);
    assert ParseFrame(f) == Some(Fields(nowMs / 1000 + effective, Utf8Encode(iv), ct));
  }
}
