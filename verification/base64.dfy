/** Base 64 with the standard alphabet and '=' padding (section 4 of
    RFC 4648), as `Buffer.prototype.toString("base64")` writes it. */
module Base64 {
  import opened Wrappers

  type byte = x: int | 0 <= x < 256
  type sextet = x: int | 0 <= x < 64

  /** The alphabet of Table 1 of RFC 4648: 'A'-'Z', 'a'-'z', '0'-'9',
      '+', '/'. */
  function Char(v: sextet): (c: char)
    ensures IsBase64Char(c)
  {
    if v < 26 then ('A' as int + v) as char
    else if v < 52 then ('a' as int + (v - 26)) as char
    else if v < 62 then ('0' as int + (v - 52)) as char
    else if v == 62 then '+'
    else '/'
  }

  predicate IsBase64Char(c: char) {
    || 'A' <= c <= 'Z'
    || 'a' <= c <= 'z'
    || '0' <= c <= '9'
    || c == '+' || c == '/'
  }

  /** The value of an alphabet character. */
  function Value(c: char): sextet
    requires IsBase64Char(c)
  {
    if 'A' <= c <= 'Z' then c as int - 'A' as int
    else if 'a' <= c <= 'z' then c as int - 'a' as int + 26
    else if '0' <= c <= '9' then c as int - '0' as int + 52
    else if c == '+' then 62
    else 63
  }

  /** `Char` and `Value` are inverse bijections between the sextets and
      the alphabet. */
  lemma ValueOfChar(v: sextet)
    ensures Value(Char(v)) == v
  {
  }

  lemma CharOfValue(c: char)
    requires IsBase64Char(c)
    ensures Char(Value(c)) == c
  {
  }

  /** Three bytes as four characters: the 24 bits cut into four sextets,
      most significant first. */
  function EncodeGroup(a: byte, b: byte, c: byte): (s: string)
    ensures |s| == 4 && forall k :: 0 <= k < 4 ==> IsBase64Char(s[k])
  {
    [Char(a / 4), Char((a % 4) * 16 + b / 16), Char((b % 16) * 4 + c / 64), Char(c % 64)]
  }

  /** The final group of one byte: two characters and "==". */
  function EncodeOne(a: byte): (s: string)
    ensures |s| == 4 && s[2] == '=' && s[3] == '='
  {
    [Char(a / 4), Char((a % 4) * 16), '=', '=']
  }

  /** The final group of two bytes: three characters and "=". */
  function EncodeTwo(a: byte, b: byte): (s: string)
    ensures |s| == 4 && s[2] != '=' && s[3] == '='
  {
    [Char(a / 4), Char((a % 4) * 16 + b / 16), Char((b % 16) * 4), '=']
  }

  /** `Buffer.toString("base64")`: four characters for every started
      group of three bytes. */
  function Encode(bs: seq<byte>): (s: string)
    ensures |s| == 4 * ((|bs| + 2) / 3)
    decreases |bs|
  {
    if |bs| == 0 then ""
    else if |bs| == 1 then EncodeOne(bs[0])
    else if |bs| == 2 then EncodeTwo(bs[0], bs[1])
    else
      assert (|bs| + 2) / 3 == (|bs[3..]| + 2) / 3 + 1;
      EncodeGroup(bs[0], bs[1], bs[2]) + Encode(bs[3..])
  }

  /** Reads four characters back; `None` for a character outside the
      alphabet or misplaced padding. */
  function DecodeQuad(q: string): (r: Option<seq<byte>>)
    requires |q| == 4
    ensures r.Some? ==> 1 <= |r.value| <= 3
  {
    if !IsBase64Char(q[0]) || !IsBase64Char(q[1]) then None
    else
      var v0, v1 := Value(q[0]), Value(q[1]);
      if q[2] == '=' && q[3] == '=' then
        Some([v0 * 4 + v1 / 16])
      else if !IsBase64Char(q[2]) then None
      else
        var v2 := Value(q[2]);
        if q[3] == '=' then
          Some([v0 * 4 + v1 / 16, (v1 % 16) * 16 + v2 / 4])
        else if !IsBase64Char(q[3]) then None
        else
          var v3 := Value(q[3]);
          Some([v0 * 4 + v1 / 16, (v1 % 16) * 16 + v2 / 4, (v2 % 4) * 64 + v3])
  }

  /** Decodes a padded string; padding may close only the last group. */
  function Decode(s: string): (r: Option<seq<byte>>)
    decreases |s|
  {
    if |s| == 0 then Some([])
    else if |s| < 4 then None
    else
      match DecodeQuad(s[..4])
      case None => None
      case Some(head) =>
        if |head| < 3 && |s| > 4 then None
        else
          match Decode(s[4..])
          case None => None
          case Some(tail) => Some(head + tail)
  }

  // A value assembled from a high and a low part reads back as the parts.

  lemma Cut16(h: int, lo: int)
    requires 0 <= lo < 16 && 0 <= h
    ensures (h * 16 + lo) / 16 == h && (h * 16 + lo) % 16 == lo
  {
  }

  lemma Cut4(h: int, lo: int)
    requires 0 <= lo < 4 && 0 <= h
    ensures (h * 4 + lo) / 4 == h && (h * 4 + lo) % 4 == lo
  {
  }

  /** A quad of four alphabet characters decodes to three bytes. */
  lemma DecodeFull(q: string)
    requires |q| == 4 && forall k :: 0 <= k < 4 ==> IsBase64Char(q[k])
    ensures var v0, v1, v2, v3 := Value(q[0]), Value(q[1]), Value(q[2]), Value(q[3]);
      DecodeQuad(q) == Some([v0 * 4 + v1 / 16, (v1 % 16) * 16 + v2 / 4, (v2 % 4) * 64 + v3])
  {
    assert IsBase64Char(q[2]) && IsBase64Char(q[3]);
  }

  lemma DecodeGroup(a: byte, b: byte, c: byte)
    ensures DecodeQuad(EncodeGroup(a, b, c)) == Some([a, b, c])
  {
    var v0, v1, v2, v3 := a / 4, (a % 4) * 16 + b / 16, (b % 16) * 4 + c / 64, c % 64;
    var q := EncodeGroup(a, b, c);
    DecodeFull(q);
    ValueOfChar(v0);
    ValueOfChar(v1);
    ValueOfChar(v2);
    ValueOfChar(v3);
    assert Value(q[0]) == v0 && Value(q[1]) == v1 && Value(q[2]) == v2 && Value(q[3]) == v3;
    Cut16(a % 4, b / 16);
    Cut4(b % 16, c / 64);
    assert v0 * 4 + v1 / 16 == a;
    assert (v1 % 16) * 16 + v2 / 4 == b;
    assert (v2 % 4) * 64 + v3 == c;
  }

  lemma DecodeOne(a: byte)
    ensures DecodeQuad(EncodeOne(a)) == Some([a])
  {
    ValueOfChar(a / 4);
    ValueOfChar((a % 4) * 16);
  }

  lemma DecodeTwo(a: byte, b: byte)
    ensures DecodeQuad(EncodeTwo(a, b)) == Some([a, b])
  {
    var v0, v1, v2 := a / 4, (a % 4) * 16 + b / 16, (b % 16) * 4;
    ValueOfChar(v0);
    ValueOfChar(v1);
    ValueOfChar(v2);
    Cut16(a % 4, b / 16);
    assert v0 * 4 + v1 / 16 == a;
    assert (v1 % 16) * 16 + v2 / 4 == b;
  }

  /** `Decode` of a single final quad. */
  lemma DecodeLast(q: string, head: seq<byte>)
    requires |q| == 4 && DecodeQuad(q) == Some(head)
    ensures Decode(q) == Some(head)
  {
    assert q[..4] == q && q[4..] == [];
    assert head + [] == head;
  }

  /** Decoding what was encoded gives the bytes back. */
  lemma {:induction false} DecodeEncode(bs: seq<byte>)
    ensures Decode(Encode(bs)) == Some(bs)
    decreases |bs|
  {
    if |bs| == 1 {
      DecodeEncodeOne(bs);
    } else if |bs| == 2 {
      DecodeEncodeTwo(bs);
    } else if |bs| >= 3 {
      DecodeEncode(bs[3..]);
      DecodeEncodeThree(bs);
    }
  }

  lemma DecodeEncodeOne(bs: seq<byte>)
    requires |bs| == 1
    ensures Decode(Encode(bs)) == Some(bs)
  {
    assert Encode(bs) == EncodeOne(bs[0]);
    DecodeOne(bs[0]);
    DecodeLast(EncodeOne(bs[0]), [bs[0]]);
    assert [bs[0]] == bs;
  }

  lemma DecodeEncodeTwo(bs: seq<byte>)
    requires |bs| == 2
    ensures Decode(Encode(bs)) == Some(bs)
  {
    assert Encode(bs) == EncodeTwo(bs[0], bs[1]);
    DecodeTwo(bs[0], bs[1]);
    DecodeLast(EncodeTwo(bs[0], bs[1]), [bs[0], bs[1]]);
    assert [bs[0], bs[1]] == bs;
  }

  lemma DecodeEncodeThree(bs: seq<byte>)
    requires |bs| >= 3 && Decode(Encode(bs[3..])) == Some(bs[3..])
    ensures Decode(Encode(bs)) == Some(bs)
  {
    var g, rest := EncodeGroup(bs[0], bs[1], bs[2]), Encode(bs[3..]);
    assert Encode(bs) == g + rest by {
      EncodeSplits(bs);
    }
    assert Decode(g + rest) == Some(bs) by {
      DecodeEncodeGroup(bs[0], bs[1], bs[2], rest, bs[3..]);
      FirstThree(bs);
    }
  }

  lemma FirstThree(bs: seq<byte>)
    requires |bs| >= 3
    ensures [bs[0], bs[1], bs[2]] + bs[3..] == bs
  {
    assert bs == [bs[0]] + bs[1..];
    assert bs[1..] == [bs[1]] + bs[2..];
    assert bs[2..] == [bs[2]] + bs[3..];
  }

  lemma DecodeEncodeGroup(a: byte, b: byte, c: byte, rest: string, tail: seq<byte>)
    requires Decode(rest) == Some(tail)
    ensures Decode(EncodeGroup(a, b, c) + rest) == Some([a, b, c] + tail)
  {
    DecodeGroup(a, b, c);
    DecodeGroupThen(EncodeGroup(a, b, c), rest, [a, b, c], tail);
  }

  lemma DecodeGroupThen(g: string, rest: string, head: seq<byte>, tail: seq<byte>)
    requires |g| == 4 && DecodeQuad(g) == Some(head) && |head| == 3
    requires Decode(rest) == Some(tail)
    ensures Decode(g + rest) == Some(head + tail)
  {
    assert (g + rest)[..4] == g && (g + rest)[4..] == rest;
  }

  lemma EncodeSplits(bs: seq<byte>)
    requires |bs| >= 3
    ensures Encode(bs) == EncodeGroup(bs[0], bs[1], bs[2]) + Encode(bs[3..])
  {
  }

  /** Every character is in the alphabet or is padding, and padding
      only ends the string. */
  ghost predicate PaddedAlphabet(s: string) {
    forall k :: 0 <= k < |s| ==> IsBase64Char(s[k]) || (s[k] == '=' && k >= |s| - 2)
  }

  lemma {:induction false} EncodeAlphabet(bs: seq<byte>)
    ensures PaddedAlphabet(Encode(bs))
    decreases |bs|
  {
    if |bs| >= 3 {
      EncodeAlphabet(bs[3..]);
      var s := Encode(bs);
      var g := EncodeGroup(bs[0], bs[1], bs[2]);
      var rest := Encode(bs[3..]);
      assert s == g + rest;
      forall k | 0 <= k < |s|
        ensures IsBase64Char(s[k]) || (s[k] == '=' && k >= |s| - 2)
      {
        if k >= 4 {
          assert s[k] == rest[k - 4];
        } else {
          assert s[k] == g[k];
        }
      }
    }
  }
}
