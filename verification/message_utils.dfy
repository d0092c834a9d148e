/** The chat-bubble helpers of `message-utils.ts` and the link test of
    `text-message.tsx`. */
module MessageUtils {
  import opened Wrappers
  import opened Strings
  import opened Dates

  /** `formatMessageTime`: local hours and minutes, each padded to two
      digits with "0", joined by ':'. */
  function FormatMessageTime(ms: int, offset: int): (s: string)
    ensures |s| == 5 && s[2] == ':'
    ensures forall k :: 0 <= k < 5 && k != 2 ==> '0' <= s[k] <= '9'
  {
    JoinFields(TwoDigits(Hour(ms, offset)), TwoDigits(Minute(ms, offset)))
  }

  /** `n.toString().padStart(2, "0")` for `n < 100`: two digits that read
      back as `n`. */
  function TwoDigits(n: nat): (p: string)
    requires n < 100
    ensures |p| == 2 && (forall k :: 0 <= k < 2 ==> '0' <= p[k] <= '9')
    ensures ParseNat(p) == n
  {
    NatToStringShort(n);
    ParseNatToString(n);
    PadStartParses(NatToString(n), 2);
    PadStart(NatToString(n), 2, '0')
  }

  /** Two two-digit fields around a ':'; each can be cut back out. */
  function JoinFields(a: string, b: string): (s: string)
    requires |a| == 2 && (forall k :: 0 <= k < 2 ==> '0' <= a[k] <= '9')
    requires |b| == 2 && (forall k :: 0 <= k < 2 ==> '0' <= b[k] <= '9')
    ensures |s| == 5 && s[2] == ':'
    ensures forall k :: 0 <= k < 5 && k != 2 ==> '0' <= s[k] <= '9'
    ensures s[..2] == a && s[3..] == b
  {
    var s := a + ":" + b;
    assert s[0] == a[0] && s[1] == a[1] && s[3] == b[0] && s[4] == b[1];
    s
  }

  /** Reading the two fields back gives the hour and the minute. */
  lemma FormatMessageTimeParses(ms: int, offset: int)
    ensures var s := FormatMessageTime(ms, offset);
      ParseNat(s[..2]) == Hour(ms, offset) && ParseNat(s[3..]) == Minute(ms, offset)
  {
  }

  /** A number below 100 has at most two digits. */
  lemma NatToStringShort(n: nat)
    requires n < 100
    ensures |NatToString(n)| <= 2
  {
    if n >= 10 {
      assert NatToString(n) == NatToString(n / 10) + [Digit(n % 10)];
    }
  }

  // `/^(ftp|http|https):\/\/[^ "]+$/`: a scheme, "://", then one or more
  // characters none of which is a space or a double quote.  Without the
  // `m` flag `$` matches only at the end, and `[^ "]` matches line breaks.

  const Schemes := ["ftp", "http", "https"]

  predicate LinkChar(c: char) {
    c != ' ' && c != '"'
  }

  /** The strings the regular expression accepts. */
  ghost predicate IsLink(s: string) {
    exists k, rest :: 0 <= k < |Schemes| && |rest| > 0 && s == Schemes[k] + "://" + rest
      && forall i :: 0 <= i < |rest| ==> LinkChar(rest[i])
  }

  /** The characters after the scheme, as the matcher scans them. */
  predicate AllLinkChars(s: string)
    decreases |s|
  {
    |s| == 0 || (LinkChar(s[0]) && AllLinkChars(s[1..]))
  }

  lemma {:induction false} AllLinkCharsIff(s: string)
    ensures AllLinkChars(s) <==> forall i :: 0 <= i < |s| ==> LinkChar(s[i])
    decreases |s|
  {
    if |s| > 0 {
      AllLinkCharsIff(s[1..]);
      assert forall i :: 1 <= i < |s| ==> s[i] == s[1..][i - 1];
    }
  }

  /** The matcher: try each scheme followed by "://", then scan the rest. */
  function LinkRest(s: string): (r: Option<string>)
    ensures r.Some? ==> exists k :: 0 <= k < |Schemes| && s == Schemes[k] + "://" + r.value
  {
    if |s| >= 6 && s[..6] == "ftp://" then
      assert s == Schemes[0] + "://" + s[6..];
      Some(s[6..])
    else if |s| >= 7 && s[..7] == "http://" then
      assert s == Schemes[1] + "://" + s[7..];
      Some(s[7..])
    else if |s| >= 8 && s[..8] == "https://" then
      assert s == Schemes[2] + "://" + s[8..];
      Some(s[8..])
    else None
  }

  /** The matcher: a scheme prefix, then a non-empty rest of link
      characters. */
  predicate MatchesLink(s: string) {
    var rest := LinkRest(s);
    rest.Some? && |rest.value| > 0 && AllLinkChars(rest.value)
  }

  /** `isLinkMessage`, and the `isLink` of `TextMessage`: the text is a
      link exactly when it matches the regular expression. */
  function IsLinkMessage(s: string): (link: bool)
    ensures link <==> IsLink(s)
  {
    MatchesLinkIff(s);
    MatchesLink(s)
  }

  /** The matcher finds the scheme a string was built with: no scheme
      followed by "://" is a prefix of another. */
  lemma LinkRestFinds(k: nat, rest: string)
    requires k < |Schemes|
    ensures LinkRest(Schemes[k] + "://" + rest) == Some(rest)
  {
    var s := Schemes[k] + "://" + rest;
    if k == 0 {
      assert s[..6] == "ftp://" && s[6..] == rest;
    } else if k == 1 {
      assert s[0] == 'h';
      assert s[..7] == "http://" && s[7..] == rest;
    } else {
      assert s[0] == 'h' && s[4] == 's';
      assert s[..8] == "https://" && s[8..] == rest;
    }
  }

  /** The matcher accepts exactly the strings of the regular expression. */
  lemma MatchesLinkIff(s: string)
    ensures MatchesLink(s) <==> IsLink(s)
  {
    if MatchesLink(s) {
      var rest := LinkRest(s).value;
      AllLinkCharsIff(rest);
      var k :| 0 <= k < |Schemes| && s == Schemes[k] + "://" + rest;
    }
    if IsLink(s) {
      var k, rest :| 0 <= k < |Schemes| && |rest| > 0 && s == Schemes[k] + "://" + rest
        && forall i :: 0 <= i < |rest| ==> LinkChar(rest[i]);
      LinkRestFinds(k, rest);
      AllLinkCharsIff(rest);
    }
  }

  /** `getMessageBackgroundClass`: the sender's own messages first, then
      the AI's, then everyone else's. */
  function BackgroundClass(fromMe: bool, fromAI: bool): (c: string)
    ensures c == "bg-green-chat" <==> fromMe
    ensures c == "bg-blue-500 text-white" <==> !fromMe && fromAI
    ensures c == "bg-white dark:bg-gray-primary" <==> !fromMe && !fromAI
  {
    if fromMe then "bg-green-chat"
    else if fromAI then "bg-blue-500 text-white"
    else "bg-white dark:bg-gray-primary"
  }

  /** `shouldShowDateIndicator`: the first message, and every message on
      another local date than the one before it (`toDateString` compares
      the local calendar date).  It is shown exactly when
      `getRelativeDateTime` has a label for the message, at any current
      time. */
  function ShouldShowDateIndicator(msg: int, prev: Option<int>, offset: int): (show: bool)
    ensures forall now :: show <==> RelativeDateTime(msg, prev, now, offset).Some?
  {
    prev.None? || Day(msg, offset) != Day(prev.value, offset)
  }

  /** What `TextMessage` renders: a link to the content itself, opened in
      a new tab, or a paragraph. */
  datatype Rendered =
    | Anchor(href: string, text: string, target: string, rel: string)
    | Paragraph(text: string)

  function TextMessage(content: string): (r: Rendered)
    ensures r.Anchor? <==> IsLink(content)
    ensures r.text == content
    ensures r.Anchor? ==> r.href == content && r.target == "_blank" && r.rel == "noopener noreferrer"
  {
    if IsLinkMessage(content) then Anchor(content, content, "_blank", "noopener noreferrer")
    else Paragraph(content)
  }
}
