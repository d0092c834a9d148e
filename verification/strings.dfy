/** String helpers that the source takes from JavaScript's standard
    library: `includes`, `join`, `split`, `trim` and `padStart`. */
module Strings {

  /** `s.includes(sub)`. */
  predicate Contains(s: string, sub: string)
    decreases |s|
  {
    || (|sub| <= |s| && s[..|sub|] == sub)
    || (|s| > 0 && Contains(s[1..], sub))
  }

  /** A string that holds `sub` holds its first character; used to show
      that a message does not contain a given phrase. */
  lemma {:induction false} ContainsFirstChar(s: string, sub: string)
    requires |sub| > 0 && Contains(s, sub)
    ensures sub[0] in s
    decreases |s|
  {
    if |sub| <= |s| && s[..|sub|] == sub {
      assert s[0] == sub[0];
    } else {
      ContainsFirstChar(s[1..], sub);
      var k :| 0 <= k < |s[1..]| && s[1..][k] == sub[0];
      assert s[k + 1] == sub[0];
    }
  }

  /** `parts.join(sep)`. */
  function Join(parts: seq<string>, sep: string): string
    decreases |parts|
  {
    if |parts| == 0 then ""
    else if |parts| == 1 then parts[0]
    else parts[0] + sep + Join(parts[1..], sep)
  }

  /** Index of the first occurrence of `c` in `s`. */
  function IndexOf(s: string, c: char): (i: nat)
    requires c in s
    ensures i < |s| && s[i] == c
    ensures c !in s[..i]
  {
    if s[0] == c then 0
    else
      assert s == [s[0]] + s[1..];
      var j := IndexOf(s[1..], c);
      assert s[..j + 1] == [s[0]] + s[1..][..j];
      j + 1
  }

  /** `s.split(c)` for a one-character separator. */
  function Split(s: string, c: char): (parts: seq<string>)
    ensures |parts| >= 1
    decreases |s|
  {
    if c !in s then [s]
    else
      var i := IndexOf(s, c);
      [s[..i]] + Split(s[i + 1..], c)
  }

  /** Splitting a joined list on its one-character separator gives the
      list back, provided no part contains the separator. */
  lemma {:induction false} SplitJoin(parts: seq<string>, c: char)
    requires |parts| >= 1
    requires forall k :: 0 <= k < |parts| ==> c !in parts[k]
    ensures Split(Join(parts, [c]), c) == parts
    decreases |parts|
  {
    if |parts| > 1 {
      var rest := Join(parts[1..], [c]);
      assert Join(parts, [c]) == parts[0] + [c] + rest;
      SplitJoin(parts[1..], c);
      SplitAfter(parts[0], c, rest);
      assert parts == [parts[0]] + parts[1..];
    }
  }

  /** The first piece of a split runs up to the first separator. */
  lemma SplitAfter(a: string, c: char, rest: string)
    requires c !in a
    ensures Split(a + [c] + rest, c) == [a] + Split(rest, c)
  {
    var s := a + [c] + rest;
    assert s[|a|] == c;
    var i := IndexOf(s, c);
    assert i == |a|;
    assert s[..|a|] == a;
    assert s[|a| + 1..] == rest;
  }

  /** ECMAScript WhiteSpace and LineTerminator code points: the set that
      `String.prototype.trim` removes (section 12.2 and 12.3 of
      ECMA-262, with the Unicode "Zs" category written out). */
  predicate IsJsWhitespace(c: char) {
    || c == '\U{0009}' || c == '\U{000B}' || c == '\U{000C}' || c == ' '
    || c == '\U{00A0}' || c == '\U{FEFF}'
    || c == '\U{1680}' || ('\U{2000}' <= c <= '\U{200A}') || c == '\U{202F}'
    || c == '\U{205F}' || c == '\U{3000}'
    || c == '\U{000A}' || c == '\U{000D}' || c == '\U{2028}' || c == '\U{2029}'
  }

  predicate AllWhitespace(s: string) {
    forall k :: 0 <= k < |s| ==> IsJsWhitespace(s[k])
  }

  /** Number of leading whitespace characters. */
  function LeadingWhitespace(s: string): (n: nat)
    ensures n <= |s|
    ensures forall k :: 0 <= k < n ==> IsJsWhitespace(s[k])
    ensures n < |s| ==> !IsJsWhitespace(s[n])
  {
    if |s| == 0 || !IsJsWhitespace(s[0]) then 0
    else
      var n := LeadingWhitespace(s[1..]);
      assert forall k :: 1 <= k < n + 1 ==> s[k] == s[1..][k - 1];
      n + 1
  }

  /** Number of trailing whitespace characters. */
  function TrailingWhitespace(s: string): (n: nat)
    ensures n <= |s|
    ensures forall k :: |s| - n <= k < |s| ==> IsJsWhitespace(s[k])
    ensures n < |s| ==> !IsJsWhitespace(s[|s| - n - 1])
  {
    if |s| == 0 || !IsJsWhitespace(s[|s| - 1]) then 0
    else TrailingWhitespace(s[..|s| - 1]) + 1
  }

  /** `s.trim()`: whitespace removed at both ends.  The result starts
      where the leading whitespace ends, and only whitespace follows it. */
  function Trim(s: string): (t: string)
    ensures LeadingWhitespace(s) + |t| <= |s|
    ensures t == s[LeadingWhitespace(s)..LeadingWhitespace(s) + |t|]
    ensures forall k :: LeadingWhitespace(s) + |t| <= k < |s| ==> IsJsWhitespace(s[k])
    ensures |t| > 0 ==> !IsJsWhitespace(t[0]) && !IsJsWhitespace(t[|t| - 1])
    ensures |t| == 0 <==> AllWhitespace(s)
  {
    var lead := LeadingWhitespace(s);
    if lead == |s| then ""
    else
      var rest := s[lead..];
      var trail := TrailingWhitespace(rest);
      var t := rest[..|rest| - trail];
      assert t == s[lead..lead + |t|];
      assert forall k :: lead + |t| <= k < |s| ==> s[k] == rest[k - lead];
      assert !IsJsWhitespace(s[lead]);
      t
  }

  /** What `Trim` removes is whitespace, on both sides of an infix. */
  lemma TrimIsInfix(s: string)
    ensures var t := Trim(s);
      exists i | 0 <= i <= |s| - |t| ::
        t == s[i..i + |t|] && AllWhitespace(s[..i]) && AllWhitespace(s[i + |t|..])
  {
    var t := Trim(s);
    var i := LeadingWhitespace(s);
    assert AllWhitespace(s[..i]);
    assert AllWhitespace(s[i + |t|..]);
  }

  /** `s.padStart(width, fill)` for a one-character fill. */
  function PadStart(s: string, width: nat, fill: char): (r: string)
    ensures |r| == if |s| >= width then |s| else width
    ensures r[|r| - |s|..] == s
    ensures forall k :: 0 <= k < |r| - |s| ==> r[k] == fill
  {
    if |s| >= width then s else seq(width - |s|, _ => fill) + s
  }

  /** Decimal digits of a natural number, as `Number.prototype.toString`
      writes them. */
  function NatToString(n: nat): (s: string)
    ensures |s| >= 1
    ensures forall k :: 0 <= k < |s| ==> '0' <= s[k] <= '9'
    ensures n < 10 <==> |s| == 1
  {
    if n < 10 then [Digit(n)] else NatToString(n / 10) + [Digit(n % 10)]
  }

  function Digit(d: nat): (c: char)
    requires d < 10
    ensures '0' <= c <= '9'
  {
    ('0' as int + d) as char
  }

  /** The value of a decimal digit; other characters read as 0. */
  function DigitValue(c: char): nat {
    if '0' <= c <= '9' then c as int - '0' as int else 0
  }

  /** Reads a string of decimal digits back into its value. */
  function ParseNat(s: string): nat {
    if |s| == 0 then 0 else ParseNat(s[..|s| - 1]) * 10 + DigitValue(s[|s| - 1])
  }

  lemma {:induction false} ParseNatToString(n: nat)
    ensures ParseNat(NatToString(n)) == n
  {
    if n >= 10 {
      var s := NatToString(n);
      assert s[..|s| - 1] == NatToString(n / 10);
      ParseNatToString(n / 10);
    }
  }

  /** Leading zeros do not change the value read back. */
  lemma {:induction false} ParseNatLeadingZeros(zeros: nat, s: string)
    requires forall k :: 0 <= k < |s| ==> '0' <= s[k] <= '9'
    ensures var z := seq(zeros, _ => '0'); ParseNat(z + s) == ParseNat(s)
    decreases |s|
  {
    var z := seq(zeros, _ => '0');
    if |s| == 0 {
      assert z + s == z;
      ZerosParseToZero(zeros);
    } else {
      assert (z + s)[..|z + s| - 1] == z + s[..|s| - 1];
      ParseNatLeadingZeros(zeros, s[..|s| - 1]);
    }
  }

  /** Padding digits with leading zeros keeps their value. */
  lemma PadStartParses(s: string, width: nat)
    requires forall k :: 0 <= k < |s| ==> '0' <= s[k] <= '9'
    ensures var p := PadStart(s, width, '0');
      && (forall k :: 0 <= k < |p| ==> '0' <= p[k] <= '9')
      && ParseNat(p) == ParseNat(s)
  {
    var p := PadStart(s, width, '0');
    if |s| < width {
      ParseNatLeadingZeros(width - |s|, s);
    }
  }

  lemma {:induction false} ZerosParseToZero(zeros: nat)
    ensures ParseNat(seq(zeros, _ => '0')) == 0
  {
    if zeros > 0 {
      assert seq(zeros, _ => '0')[..zeros - 1] == seq(zeros - 1, _ => '0');
      ZerosParseToZero(zeros - 1);
    }
  }
}
