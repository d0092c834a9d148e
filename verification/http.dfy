/** The Clerk webhook endpoint of `convex/http.ts` (`POST /clerk`) and the
    `fulfill` action of `convex/clerk.ts` it calls.

    The handler checks the three svix headers, has the payload verified,
    maps the verified event to one of the four user mutations, and turns
    any error into a status code.  Signature verification itself (HMAC
    over the payload) belongs to the svix library; here its outcome is a
    parameter, `Verification`. */
module Http {
  import opened Wrappers
  import opened Strings
  import opened Users
  import opened Reconciler

  /** The environment variables the two files read.  `None` is an unset
      variable; JavaScript treats the empty string as unset too. */
  datatype Env = Env(
    jwtIssuerDomain: Option<string>,  // CLERK_JWT_ISSUER_DOMAIN
    appDomain: Option<string>,        // CLERK_APP_DOMAIN
    webhookSecret: Option<string>)    // CLERK_WEBHOOK_SECRET

  /** A header or environment value JavaScript treats as truthy. */
  predicate Set(v: Option<string>) {
    v.Some? && v.value != ""
  }

  /** The issuer prefix of every token identifier: the first set one of
      the two domain variables, else the empty string. */
  function Issuer(env: Env): (iss: string)
    ensures iss == "" <==> !Set(env.jwtIssuerDomain) && !Set(env.appDomain)
    ensures Set(env.jwtIssuerDomain) ==> iss == env.jwtIssuerDomain.value
    ensures !Set(env.jwtIssuerDomain) && Set(env.appDomain) ==> iss == env.appDomain.value
  {
    if Set(env.jwtIssuerDomain) then env.jwtIssuerDomain.value
    else if Set(env.appDomain) then env.appDomain.value
    else ""
  }

  datatype Headers = Headers(
    svixId: Option<string>,
    svixSignature: Option<string>,
    svixTimestamp: Option<string>)

  predicate HeadersPresent(h: Headers) {
    Set(h.svixId) && Set(h.svixSignature) && Set(h.svixTimestamp)
  }

  /** The fields of a Clerk event the handler reads: `id`,
      `email_addresses[*].email_address`, `first_name`, `last_name` and
      `image_url` of a user event; `user_id` of a session event. */
  datatype EventData = EventData(
    id: string,
    emailAddresses: seq<string>,
    firstName: Option<string>,
    lastName: Option<string>,
    imageUrl: string,
    userId: string)

  datatype Event = Event(eventType: string, data: EventData)

  /** What `new Webhook(secret).verify(payload, headers)` decides: the
      parsed event, or the message of the error it throws. */
  datatype Verification = Verified(event: Event) | Rejected(message: string)

  datatype Response = Response(status: int, body: Option<string>)

  /** The message `fulfill` throws when no webhook secret is set: the
      variable's name between "Missing " and " in your .env file". */
  const MissingSecret := "Missing " + "CLERK_WEBHOOK_SECRET" + " in your .env file"

  /** The message of the argument-validation error Convex raises when
      `createUser` receives no `email` string. */
  const EmailRejected := "Object is missing " + "the required field `email`"

  /** The `fulfill` action: refuses to verify without a secret, otherwise
      passes the verification outcome through. */
  function Fulfill(env: Env, v: Verification): (r: Result<Event, string>)
    ensures !Set(env.webhookSecret) ==> r == Failure(MissingSecret)
    ensures r.Success? <==> Set(env.webhookSecret) && v.Verified?
    ensures r.Success? ==> r.value == v.event
    ensures Set(env.webhookSecret) && v.Rejected? ==> r == Failure(v.message)
  {
    if !Set(env.webhookSecret) then Failure(MissingSecret)
    else match v
      case Verified(e) => Success(e)
      case Rejected(msg) => Failure(msg)
  }

  /** The token identifier of Clerk user `id`. */
  function TokenFor(issuer: string, id: string): (tok: string)
    ensures |tok| == |issuer| + 1 + |id|
    ensures tok[..|issuer|] == issuer && tok[|issuer|] == '|' && tok[|issuer| + 1..] == id
  {
    issuer + "|" + id
  }

  /** The display name written by `user.created`: a missing first name
      becomes "Guest", a missing last name the empty string. */
  function DisplayName(first: Option<string>, last: Option<string>): (name: string)
    ensures var f, l := first.GetOr("Guest"), last.GetOr("");
      && |name| == |f| + 1 + |l|
      && name[..|f|] == f && name[|f|] == ' ' && name[|f| + 1..] == l
  {
    first.GetOr("Guest") + " " + last.GetOr("")
  }

  /** The mutation a verified event asks for; `None` for an event type
      the handler ignores, and a failure when `user.created` carries no
      e-mail address. */
  function Dispatch(issuer: string, e: Event): (r: Result<Option<Mutation>, string>)
    ensures r.Failure? <==> e.eventType == "user.created" && |e.data.emailAddresses| == 0
    ensures r.Failure? ==> r.error == EmailRejected
    ensures r == Success(None) <==>
      e.eventType !in {"user.created", "user.updated", "session.created", "session.ended", "session.removed"}
    ensures r.Success? && r.value.Some? ==>
      var m := r.value.value;
      && m.token == TokenFor(issuer, if m.Create? || m.Update? then e.data.id else e.data.userId)
      && (m.Create? <==> e.eventType == "user.created")
      && (m.Update? <==> e.eventType == "user.updated")
      && (m.Online? <==> e.eventType == "session.created")
      && (m.Offline? <==> e.eventType in {"session.ended", "session.removed"})
    ensures r.Success? && r.value.Some? && r.value.value.Create? ==>
      && r.value.value.email == e.data.emailAddresses[0]
      && r.value.value.name == DisplayName(e.data.firstName, e.data.lastName)
      && r.value.value.image == e.data.imageUrl
    ensures r.Success? && r.value.Some? && r.value.value.Update? ==>
      r.value.value.image == e.data.imageUrl
  {
    var d := e.data;
    if e.eventType == "user.created" then
      if |d.emailAddresses| == 0 then Failure(EmailRejected)
      else Success(Some(Create(TokenFor(issuer, d.id), d.emailAddresses[0],
                               DisplayName(d.firstName, d.lastName), d.imageUrl)))
    else if e.eventType == "user.updated" then
      Success(Some(Update(TokenFor(issuer, d.id), d.imageUrl)))
    else if e.eventType == "session.created" then
      Success(Some(Online(TokenFor(issuer, d.userId))))
    else if e.eventType == "session.ended" || e.eventType == "session.removed" then
      Success(Some(Offline(TokenFor(issuer, d.userId))))
    else Success(None)
  }

  const SignatureMissing := "No matching signature found"
  const SignatureInvalid := "Invalid signature"

  /** The `catch` block: the two svix signature errors are 401s, every
      other error is a 500. */
  function ErrorResponse(message: string): (resp: Response)
    ensures resp.status == 401 <==> Contains(message, SignatureMissing) || Contains(message, SignatureInvalid)
    ensures resp.status == 500 <==> !Contains(message, SignatureMissing) && !Contains(message, SignatureInvalid)
    ensures resp.body.Some?
  {
    if Contains(message, SignatureMissing) then Response(401, Some("Signature verification failed"))
    else if Contains(message, SignatureInvalid) then Response(401, Some("Invalid signature"))
    else Response(500, Some("Webhook Error"))
  }

  const Ok := Response(200, None)
  const MissingHeaders := Response(400, Some("Missing Svix headers"))

  /** One request to `POST /clerk` against the `users` table: the table
      afterwards and the response. */
  function Handle(env: Env, t: Table, h: Headers, v: Verification): (r: (Table, Response))
    ensures r.1.status in {200, 400, 401, 500}
    ensures r.1.status == 400 <==> !HeadersPresent(h)
    ensures r.1.status == 200 <==> r.1.body.None?
    ensures r.1.status != 200 ==> r.0 == t
  {
    if !HeadersPresent(h) then (t, MissingHeaders)
    else match Fulfill(env, v)
      case Failure(msg) => (t, ErrorResponse(msg))
      case Success(e) =>
        match Dispatch(Issuer(env), e)
        case Failure(msg) => (t, ErrorResponse(msg))
        case Success(None) => (t, Ok)
        case Success(Some(m)) =>
          match Apply(t, m)
          case Failure(err) => (t, ErrorResponse(Message(err)))
          case Success(t') => (t', Ok)
  }

  /** A message without 'N' and 'I' is neither signature error. */
  lemma NotSignatureError(message: string)
    requires 'N' !in message && 'I' !in message
    ensures ErrorResponse(message) == Response(500, Some("Webhook Error"))
  {
    if Contains(message, SignatureMissing) {
      ContainsFirstChar(message, SignatureMissing);
    }
    if Contains(message, SignatureInvalid) {
      ContainsFirstChar(message, SignatureInvalid);
    }
  }

  /** Without the three svix headers the request is refused before any
      verification, whatever the payload would have verified to. */
  lemma MissingHeadersRefused(env: Env, t: Table, h: Headers, v: Verification)
    requires !HeadersPresent(h)
    ensures Handle(env, t, h, v) == (t, MissingHeaders)
  {
  }

  /** Without a webhook secret every request with headers is a 500 and
      changes nothing: the handler fails closed. */
  lemma MissingSecretFailsClosed(env: Env, t: Table, h: Headers, v: Verification)
    requires HeadersPresent(h) && !Set(env.webhookSecret)
    ensures Handle(env, t, h, v) == (t, Response(500, Some("Webhook Error")))
  {
    assert 'N' !in MissingSecret && 'I' !in MissingSecret;
    NotSignatureError(MissingSecret);
  }

  /** A payload svix rejects for lack of a matching signature is a 401
      and changes nothing. */
  lemma SignatureRejected(env: Env, t: Table, h: Headers, msg: string)
    requires HeadersPresent(h) && Set(env.webhookSecret)
    requires Contains(msg, SignatureMissing) || Contains(msg, SignatureInvalid)
    ensures Handle(env, t, h, Rejected(msg)).0 == t
    ensures Handle(env, t, h, Rejected(msg)).1.status == 401
  {
  }

  /** An event type the handler does not know is acknowledged with 200 and
      a null body and changes nothing. */
  lemma UnknownEventIgnored(env: Env, t: Table, h: Headers, e: Event)
    requires HeadersPresent(h) && Set(env.webhookSecret)
    requires e.eventType !in {"user.created", "user.updated", "session.created", "session.ended", "session.removed"}
    ensures Handle(env, t, h, Verified(e)) == (t, Ok)
  {
  }

  /** `user.updated` for a user the table does not know fails with
      "User not found", which the handler reports as a 500. */
  lemma UpdateOfUnknownUserIs500(env: Env, t: Table, h: Headers, e: Event)
    requires Valid(t) && HeadersPresent(h) && Set(env.webhookSecret)
    requires e.eventType == "user.updated" && !HasToken(t, TokenFor(Issuer(env), e.data.id))
    ensures Handle(env, t, h, Verified(e)) == (t, Response(500, Some("Webhook Error")))
  {
    var m := Update(TokenFor(Issuer(env), e.data.id), e.data.imageUrl);
    assert Dispatch(Issuer(env), e) == Success(Some(m));
    assert Apply(t, m) == Failure(UserNotFound);
    NotSignatureError(Message(UserNotFound));
  }

  /** `user.created` without an e-mail address is a 500 and changes
      nothing. */
  lemma CreateWithoutEmailIs500(env: Env, t: Table, h: Headers, e: Event)
    requires HeadersPresent(h) && Set(env.webhookSecret)
    requires e.eventType == "user.created" && |e.data.emailAddresses| == 0
    ensures Handle(env, t, h, Verified(e)) == (t, Response(500, Some("Webhook Error")))
  {
    assert 'N' !in EmailRejected && 'I' !in EmailRejected;
    NotSignatureError(EmailRejected);
  }

  /** The mutation a request carries to the table: one with the svix
      headers, a webhook secret, a verified payload and an event type the
      handler dispatches. */
  function Dispatched(env: Env, h: Headers, v: Verification): Option<Mutation> {
    if HeadersPresent(h) && Set(env.webhookSecret) && v.Verified? then
      match Dispatch(Issuer(env), v.event)
      case Success(Some(m)) => Some(m)
      case _ => None
    else None
  }

  /** The table after a request is the reconciler's `Next` of the
      mutation it carries, and the table before when it carries none; a
      request carrying a mutation is answered 200 exactly when the
      mutation succeeds. */
  lemma HandleIsNext(env: Env, t: Table, h: Headers, v: Verification)
    ensures Dispatched(env, h, v).None? ==> Handle(env, t, h, v).0 == t
    ensures Dispatched(env, h, v).Some? ==>
      var m := Dispatched(env, h, v).value;
      && Handle(env, t, h, v).0 == Next(t, m)
      && (Handle(env, t, h, v).1 == Ok <==> Apply(t, m).Success?)
  {
  }

  /** On a well-formed table every request leaves a well-formed table. */
  lemma HandlePreservesValid(env: Env, t: Table, h: Headers, v: Verification)
    requires Valid(t)
    ensures Valid(Handle(env, t, h, v).0)
  {
    if HeadersPresent(h) && Set(env.webhookSecret) && v.Verified? {
      var d := Dispatch(Issuer(env), v.event);
      if d.Success? && d.value.Some? {
        ApplyPreservesValid(t, d.value.value);
      }
    }
  }

  /** On a well-formed table a delivery fails only as the cases above
      say: missing headers (400), a signature error (401), a missing
      secret, a `user.created` without e-mail, an update for an unknown
      user or another rejection of the payload (500). */
  lemma HandleFailsOnlyFor(env: Env, t: Table, h: Headers, e: Event)
    requires Valid(t) && HeadersPresent(h) && Set(env.webhookSecret)
    ensures Handle(env, t, h, Verified(e)).1.status != 200 <==>
      || (e.eventType == "user.created" && |e.data.emailAddresses| == 0)
      || (e.eventType == "user.updated" && !HasToken(t, TokenFor(Issuer(env), e.data.id)))
  {
  }

  /** Two distinct Clerk users get two distinct token identifiers. */
  lemma TokenForInjective(issuer: string, a: string, b: string)
    requires TokenFor(issuer, a) == TokenFor(issuer, b)
    ensures a == b
  {
    assert a == TokenFor(issuer, a)[|issuer| + 1..];
  }

  /** The display name splits back into the two names at its space when
      neither name holds one. */
  lemma {:induction false} DisplayNameSplits(first: Option<string>, last: Option<string>)
    requires ' ' !in first.GetOr("Guest") && ' ' !in last.GetOr("")
    ensures Split(DisplayName(first, last), ' ') == [first.GetOr("Guest"), last.GetOr("")]
  {
    var parts := [first.GetOr("Guest"), last.GetOr("")];
    assert Join(parts, " ") == DisplayName(first, last) by {
      assert parts[1..] == [last.GetOr("")];
    }
    SplitJoin(parts, ' ');
  }

  /** A repeated `user.created` delivery (svix retries) leaves the table
      as the first delivery did. */
  lemma CreateRedeliveryIdempotent(env: Env, t: Table, h: Headers, e: Event)
    requires Valid(t) && HeadersPresent(h) && Set(env.webhookSecret)
    requires e.eventType == "user.created"
    ensures var t1 := Handle(env, t, h, Verified(e)).0;
      Handle(env, t1, h, Verified(e)).0 == t1
  {
    var d := Dispatch(Issuer(env), e);
    if d.Success? {
      var m := d.value.value;
      CreateIdempotent(t, m.token, m.email, m.name, m.image);
    }
  }
}
