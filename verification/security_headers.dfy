/** The response headers `next.config.ts` attaches to every route, among
    them the Content-Security-Policy assembled from source lists that
    depend on the build mode and on whether Clerk is configured. */
module SecurityHeaders {
  import opened Wrappers
  import opened Strings

  datatype Header = Header(key: string, value: string)

  datatype Route = Route(source: string, headers: seq<Header>)

  /** `process.env.NODE_ENV !== "production"`: unset counts as development. */
  predicate IsDev(nodeEnv: Option<string>) {
    nodeEnv != Some("production")
  }

  /** `Boolean(process.env.NEXT_PUBLIC_CLERK_PUBLISHABLE_KEY)`: set and
      non-empty. */
  predicate ClerkEnabled(publishableKey: Option<string>) {
    publishableKey.Some? && publishableKey.value != ""
  }

  // The three Clerk domains, each as an https wildcard over its subdomains.
  const ClerkHosts: seq<string> := ["https://*." + "clerk.com", "https://*." + "clerkstage.dev", "https://*." + "clerk.accounts.dev"]

  const Self := "'self'"
  const UnsafeInline := "'unsafe-inline'"
  const UnsafeEval := "'unsafe-eval'"

  function Hosts(clerk: bool): seq<string> {
    if clerk then ClerkHosts else []
  }

  /** Every Clerk host is longer than any keyword or scheme source, so none
      of them equals one. */
  lemma HostsAreLong()
    ensures forall h :: h in ClerkHosts ==> |h| >= 19
    ensures |Self| == 6 && |UnsafeInline| == 15 && |UnsafeEval| == 13
    ensures |"https:"| == 6 && |"data:"| == 5 && |"ws:"| == 3 && |"wss:"| == 4
  {
  }

  /** `scriptParts`: 'self' and 'unsafe-inline', 'unsafe-eval' only in
      development, the Clerk hosts only when Clerk is configured. */
  function ScriptParts(dev: bool, clerk: bool): (r: seq<string>)
    ensures |r| >= 2 && r[0] == Self && r[1] == UnsafeInline
    ensures UnsafeEval in r <==> dev
    ensures forall h :: h in ClerkHosts ==> (h in r <==> clerk)
  {
    HostsAreLong();
    [Self, UnsafeInline] + (if dev then [UnsafeEval] else []) + Hosts(clerk)
  }

  /** `connectParts`: 'self' and any https origin, WebSockets only in
      development, the Clerk hosts only when Clerk is configured. */
  function ConnectParts(dev: bool, clerk: bool): (r: seq<string>)
    ensures |r| >= 2 && r[0] == Self && r[1] == "https:"
    ensures "ws:" in r <==> dev
    ensures "wss:" in r <==> dev
    ensures forall h :: h in ClerkHosts ==> (h in r <==> clerk)
  {
    HostsAreLong();
    [Self, "https:"] + (if dev then ["ws:", "wss:"] else []) + Hosts(clerk)
  }

  /** `frameParts`: 'self', and the Clerk hosts only when Clerk is
      configured. */
  function FrameParts(clerk: bool): (r: seq<string>)
    ensures |r| >= 1 && r[0] == Self
    ensures forall h :: h in ClerkHosts ==> (h in r <==> clerk)
    ensures forall x :: x in r && x != Self ==> x in ClerkHosts
  {
    HostsAreLong();
    [Self] + Hosts(clerk)
  }

  /** `imgParts`: 'self', data URLs and any https origin, and the Clerk
      hosts only when Clerk is configured. */
  function ImgParts(clerk: bool): (r: seq<string>)
    ensures |r| >= 3 && r[0] == Self && r[1] == "data:" && r[2] == "https:"
    ensures forall h :: h in ClerkHosts ==> (h in r <==> clerk)
  {
    HostsAreLong();
    [Self, "data:", "https:"] + Hosts(clerk)
  }

  const FontParts: seq<string> := [Self, "https:", "data:"]

  /** A directive: its name followed by its sources, space-separated. */
  datatype Directive = Directive(name: string, sources: seq<string>)

  // Positions of the directives in the policy.
  const DefaultSrc := 0
  const ImgSrc := 1
  const ScriptSrc := 2
  const ScriptSrcElem := 3
  const StyleSrc := 4
  const ConnectSrc := 5
  const FrameSrc := 6
  const FontSrc := 7

  /** The eight directives in the order the policy lists them, beginning
      with `default-src 'self'`. */
  function Policy(dev: bool, clerk: bool): (p: seq<Directive>)
    ensures |p| == 8
    ensures p[DefaultSrc] == Directive("default-src", [Self])
    ensures p[ImgSrc] == Directive("img-src", ImgParts(clerk))
    ensures p[ScriptSrc] == Directive("script-src", ScriptParts(dev, clerk))
    ensures p[ScriptSrcElem] == Directive("script-src-elem", ScriptParts(dev, clerk))
    ensures p[StyleSrc] == Directive("style-src", [Self, UnsafeInline])
    ensures p[ConnectSrc] == Directive("connect-src", ConnectParts(dev, clerk))
    ensures p[FrameSrc] == Directive("frame-src", FrameParts(clerk))
    ensures p[FontSrc] == Directive("font-src", [Self, "https:", "data:"])
  {
    [ Directive("default-src", [Self]),
      Directive("img-src", ImgParts(clerk)),
      Directive("script-src", ScriptParts(dev, clerk)),
      Directive("script-src-elem", ScriptParts(dev, clerk)),
      Directive("style-src", [Self, UnsafeInline]),
      Directive("connect-src", ConnectParts(dev, clerk)),
      Directive("frame-src", FrameParts(clerk)),
      Directive("font-src", FontParts) ]
  }

  /** Inline scripts and `<script>` elements get the same sources, and
      only the default, style and font sources are fixed. */
  lemma PolicyShape(dev: bool, clerk: bool, dev': bool, clerk': bool)
    ensures Policy(dev, clerk)[ScriptSrc].sources == Policy(dev, clerk)[ScriptSrcElem].sources
    ensures Policy(dev, clerk)[DefaultSrc] == Policy(dev', clerk')[DefaultSrc]
    ensures Policy(dev, clerk)[StyleSrc] == Policy(dev', clerk')[StyleSrc]
    ensures Policy(dev, clerk)[FontSrc] == Policy(dev', clerk')[FontSrc]
  {
  }

  /** No Clerk host is a quoted keyword. */
  lemma HostsAreNotKeywords(clerk: bool, x: string)
    requires |x| > 0 && x[0] == '\''
    ensures x !in Hosts(clerk)
  {
    if clerk {
      forall k | 0 <= k < |ClerkHosts| ensures ClerkHosts[k] != x {
        assert ClerkHosts[k][0] == 'h';
      }
    }
  }

  /** `eval` is allowed to scripts only in development. */
  lemma UnsafeEvalOnlyInDev(dev: bool, clerk: bool)
    ensures UnsafeEval in Policy(dev, clerk)[ScriptSrc].sources <==> dev
    ensures UnsafeEval in Policy(dev, clerk)[ScriptSrcElem].sources <==> dev
  {
  }

  /** WebSocket connections are allowed only in development. */
  lemma WebSocketsOnlyInDev(dev: bool, clerk: bool)
    ensures "ws:" in Policy(dev, clerk)[ConnectSrc].sources <==> dev
    ensures "wss:" in Policy(dev, clerk)[ConnectSrc].sources <==> dev
  {
  }

  /** The Clerk hosts are allowed for images, scripts, connections and
      frames exactly when Clerk is configured, and never for fonts. */
  lemma ClerkHostsIffEnabled(dev: bool, clerk: bool, h: string)
    requires h in ClerkHosts
    ensures h in Policy(dev, clerk)[ImgSrc].sources <==> clerk
    ensures h in Policy(dev, clerk)[ScriptSrc].sources <==> clerk
    ensures h in Policy(dev, clerk)[ConnectSrc].sources <==> clerk
    ensures h in Policy(dev, clerk)[FrameSrc].sources <==> clerk
    ensures h !in Policy(dev, clerk)[FontSrc].sources
  {
    HostsAreLong();
  }

  /** A directive as it appears in the header: `name source source ...`. */
  function RenderDirective(d: Directive): string {
    Join([d.name] + d.sources, " ")
  }

  function RenderAll(p: seq<Directive>): (r: seq<string>)
    ensures |r| == |p|
    ensures forall k :: 0 <= k < |p| ==> r[k] == RenderDirective(p[k])
  {
    seq(|p|, k requires 0 <= k < |p| => RenderDirective(p[k]))
  }

  /** The header value: the directives joined by "; ". */
  function RenderPolicy(p: seq<Directive>): string {
    Join(RenderAll(p), "; ")
  }

  /** A name or a source: non-empty, without spaces or semicolons. */
  predicate Token(t: string) {
    |t| > 0 && ' ' !in t && ';' !in t
  }

  predicate WellFormed(p: seq<Directive>) {
    |p| >= 1
    && forall k :: 0 <= k < |p| ==> Token(p[k].name) && AllTokens(p[k].sources)
  }

  /** Reads a header value back: split on ';', drop the space after each
      semicolon, split each directive on ' '. */
  function ParsePolicy(value: string): seq<Directive> {
    var parts := Split(value, ';');
    seq(|parts|, k requires 0 <= k < |parts| =>
      var words := Split(if k > 0 && |parts[k]| > 0 then parts[k][1..] else parts[k], ' ');
      Directive(words[0], words[1..]))
  }

  /** `Join(parts, "; ")` is `Join` on ';' of the parts with a space put
      before every part but the first. */
  lemma {:induction false} JoinSemicolonSpace(parts: seq<string>)
    requires |parts| >= 1
    ensures Join(parts, "; ") == Join(SpaceLed(parts), ";")
    decreases |parts|
  {
    if |parts| > 1 {
      JoinSemicolonSpace(parts[1..]);
      var rest := parts[1..];
      assert SpaceLed(parts) == [parts[0]] + [" " + rest[0]] + SpaceLed(rest)[1..];
      assert SpaceLed(parts)[1..] == [" " + rest[0]] + SpaceLed(rest)[1..];
      JoinLedOnce(rest);
      assert Join(SpaceLed(parts), ";") == parts[0] + ";" + Join(SpaceLed(parts)[1..], ";");
    }
  }

  /** Putting a space before the first part of a `;`-join. */
  lemma JoinLedOnce(parts: seq<string>)
    requires |parts| >= 1
    ensures Join([" " + parts[0]] + SpaceLed(parts)[1..], ";") == " " + Join(SpaceLed(parts), ";")
  {
    var l := SpaceLed(parts);
    var m := [" " + parts[0]] + l[1..];
    if |parts| > 1 {
      assert m[1..] == l[1..];
    }
  }

  function SpaceLed(parts: seq<string>): (r: seq<string>)
    requires |parts| >= 1
    ensures |r| == |parts| && r[0] == parts[0]
    ensures forall k :: 1 <= k < |parts| ==> r[k] == " " + parts[k]
  {
    seq(|parts|, k requires 0 <= k < |parts| => if k == 0 then parts[0] else " " + parts[k])
  }

  /** A directive without spaces in its tokens reads back from its text. */
  lemma DirectiveRoundTrip(d: Directive)
    requires Token(d.name) && AllTokens(d.sources)
    ensures var words := Split(RenderDirective(d), ' '); |words| >= 1 && words[0] == d.name && words[1..] == d.sources
  {
    var ws := [d.name] + d.sources;
    assert forall k :: 0 <= k < |ws| ==> ' ' !in ws[k] by {
      forall k | 0 <= k < |ws| ensures ' ' !in ws[k] {
        if k > 0 {
          assert ws[k] == d.sources[k - 1];
        }
      }
    }
    SplitJoin(ws, ' ');
  }

  /** The rendered text of a directive holds no semicolon. */
  lemma {:induction false} NoSemicolonInJoin(parts: seq<string>)
    requires forall k :: 0 <= k < |parts| ==> ';' !in parts[k]
    ensures ';' !in Join(parts, " ")
    decreases |parts|
  {
    if |parts| > 1 {
      NoSemicolonInJoin(parts[1..]);
      assert Join(parts, " ") == parts[0] + " " + Join(parts[1..], " ");
    }
  }

  /** A well-formed policy reads back from its header value. */
  lemma PolicyRoundTrip(p: seq<Directive>)
    requires WellFormed(p)
    ensures ParsePolicy(RenderPolicy(p)) == p
  {
    var r := RenderAll(p);
    var led := SpaceLed(r);
    JoinSemicolonSpace(r);
    forall k | 0 <= k < |p| ensures ';' !in led[k] && ';' !in r[k] {
      var ws := [p[k].name] + p[k].sources;
      forall j | 0 <= j < |ws| ensures ';' !in ws[j] {
        if j > 0 {
          assert ws[j] == p[k].sources[j - 1];
        }
      }
      NoSemicolonInJoin(ws);
      if k > 0 {
        assert led[k] == " " + r[k];
      }
    }
    SplitJoin(led, ';');
    var parts := Split(RenderPolicy(p), ';');
    assert parts == led;
    var q := ParsePolicy(RenderPolicy(p));
    forall k | 0 <= k < |p| ensures q[k] == p[k] {
      var text := if k > 0 && |parts[k]| > 0 then parts[k][1..] else parts[k];
      assert text == r[k] by {
        if k > 0 {
          assert parts[k] == " " + r[k];
        }
      }
      DirectiveRoundTrip(p[k]);
    }
  }

  predicate AllTokens(s: seq<string>) {
    forall j :: 0 <= j < |s| ==> Token(s[j])
  }

  lemma AllTokensConcat(a: seq<string>, b: seq<string>)
    requires AllTokens(a) && AllTokens(b)
    ensures AllTokens(a + b)
  {
    assert forall j :: |a| <= j < |a + b| ==> (a + b)[j] == b[j - |a|];
  }

  lemma KeywordsAreTokens()
    ensures Token(Self) && Token(UnsafeInline) && Token(UnsafeEval)
    ensures Token("https:") && Token("data:") && Token("ws:") && Token("wss:")
  {
  }

  lemma HostsAreTokens(clerk: bool)
    ensures AllTokens(Hosts(clerk))
  {
    var prefix := "https://*.";
    assert ' ' !in prefix && ';' !in prefix;
    assert ' ' !in "clerk.com" && ';' !in "clerk.com";
    assert ' ' !in "clerkstage.dev" && ';' !in "clerkstage.dev";
    assert ' ' !in "clerk.accounts.dev" && ';' !in "clerk.accounts.dev";
  }

  lemma PartsAreTokens(dev: bool, clerk: bool)
    ensures AllTokens(ScriptParts(dev, clerk)) && AllTokens(ConnectParts(dev, clerk))
    ensures AllTokens(FrameParts(clerk)) && AllTokens(ImgParts(clerk)) && AllTokens(FontParts)
  {
    KeywordsAreTokens();
    HostsAreTokens(clerk);
    AllTokensConcat([Self, UnsafeInline] + (if dev then [UnsafeEval] else []), Hosts(clerk));
    AllTokensConcat([Self, "https:"] + (if dev then ["ws:", "wss:"] else []), Hosts(clerk));
    AllTokensConcat([Self], Hosts(clerk));
    AllTokensConcat([Self, "data:", "https:"], Hosts(clerk));
  }

  lemma NamesAreTokens()
    ensures Token("default-src") && Token("img-src") && Token("script-src") && Token("script-src-elem")
    ensures Token("style-src") && Token("connect-src") && Token("frame-src") && Token("font-src")
  {
  }

  /** Every policy the configuration can produce is well formed, so its
      header value reads back as the eight directives. */
  lemma ConfiguredPolicyRoundTrip(dev: bool, clerk: bool)
    ensures ParsePolicy(RenderPolicy(Policy(dev, clerk))) == Policy(dev, clerk)
  {
    var p := Policy(dev, clerk);
    PartsAreTokens(dev, clerk);
    NamesAreTokens();
    KeywordsAreTokens();
    assert WellFormed(p) by {
      forall k | 0 <= k < |p| ensures Token(p[k].name) && AllTokens(p[k].sources) {
      }
    }
    PolicyRoundTrip(p);
  }

  // The five headers that do not depend on the environment.
  const FrameOptions := Header("X-Frame-Options", "DENY")
  const ContentTypeOptions := Header("X-Content-Type-Options", "nosniff")
  const ReferrerPolicy := Header("Referrer-Policy", "strict-origin-when-cross-origin")
  const PermissionsPolicy := Header("Permissions-Policy", "geolocation=(), microphone=(), camera=()")
  const TransportSecurity := Header("Strict-Transport-Security", "max-age=63072000; includeSubDomains; preload")

  /** The Content-Security-Policy header for a build. */
  function CspHeader(nodeEnv: Option<string>, publishableKey: Option<string>): (h: Header)
    ensures h.key == "Content-Security-Policy"
    ensures h.value == RenderPolicy(Policy(IsDev(nodeEnv), ClerkEnabled(publishableKey)))
  {
    Header("Content-Security-Policy", RenderPolicy(Policy(IsDev(nodeEnv), ClerkEnabled(publishableKey))))
  }

  /** The `headers()` result: one route matching every path, with the
      framing, sniffing, referrer, permissions, content-security and
      transport-security headers in this order. */
  function Headers(nodeEnv: Option<string>, publishableKey: Option<string>): (routes: seq<Route>)
    ensures |routes| == 1 && routes[0].source == "/(.*)" && |routes[0].headers| == 6
    ensures routes[0].headers[4] == CspHeader(nodeEnv, publishableKey)
  {
    [Route("/(.*)", [FrameOptions, ContentTypeOptions, ReferrerPolicy, PermissionsPolicy,
      CspHeader(nodeEnv, publishableKey), TransportSecurity])]
  }

  /** The header keys are distinct: no header is sent twice. */
  lemma HeaderKeysDistinct(nodeEnv: Option<string>, publishableKey: Option<string>)
    ensures var hs := Headers(nodeEnv, publishableKey)[0].headers;
      forall i, j :: 0 <= i < j < |hs| ==> hs[i].key != hs[j].key
  {
    var csp := CspHeader(nodeEnv, publishableKey);
    var hs := Headers(nodeEnv, publishableKey)[0].headers;
    assert hs == [FrameOptions, ContentTypeOptions, ReferrerPolicy, PermissionsPolicy, csp, TransportSecurity];
    assert |csp.key| == 23;
    FixedKeyShapes();
    KeysDiffer(hs);
  }

  /** Lengths of the five fixed keys, and the last characters of the two
      that share a length. */
  lemma FixedKeyShapes()
    ensures |FrameOptions.key| == 15 && FrameOptions.key[14] == 's'
    ensures |ContentTypeOptions.key| == 22
    ensures |ReferrerPolicy.key| == 15 && ReferrerPolicy.key[14] == 'y'
    ensures |PermissionsPolicy.key| == 18 && |TransportSecurity.key| == 25
  {
  }

  /** Six keys that differ in length or, at equal length, in their last
      character. */
  lemma KeysDiffer(hs: seq<Header>)
    requires |hs| == 6
    requires |hs[0].key| == 15 && |hs[1].key| == 22 && |hs[2].key| == 15
    requires |hs[3].key| == 18 && |hs[4].key| == 23 && |hs[5].key| == 25
    requires hs[0].key[14] != hs[2].key[14]
    ensures forall i, j :: 0 <= i < j < |hs| ==> hs[i].key != hs[j].key
  {
  }

  /** Only the Content-Security-Policy depends on the environment; the
      other five headers are the same for every build. */
  lemma FixedHeadersConstant(env1: Option<string>, key1: Option<string>, env2: Option<string>, key2: Option<string>)
    ensures var a, b := Headers(env1, key1)[0].headers, Headers(env2, key2)[0].headers;
      forall k :: 0 <= k < 6 && k != 4 ==> a[k] == b[k]
  {
  }

  /** The policy a production build with Clerk sends: no `eval`, no
      WebSockets, Clerk allowed where the policy names it. */
  lemma ProductionWithClerk(h: string)
    requires h in ClerkHosts
    ensures var p := Policy(IsDev(Some("production")), ClerkEnabled(Some("pk_live")));
      && UnsafeEval !in p[ScriptSrc].sources
      && "ws:" !in p[ConnectSrc].sources
      && "wss:" !in p[ConnectSrc].sources
      && h in p[FrameSrc].sources
  {
    assert !IsDev(Some("production"));
    assert ClerkEnabled(Some("pk_live"));
    UnsafeEvalOnlyInDev(false, true);
    WebSocketsOnlyInDev(false, true);
    ClerkHostsIffEnabled(false, true, h);
  }
}
