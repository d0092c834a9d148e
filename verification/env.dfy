/** The client-side configuration of `src/lib/constants.ts` and its
    fail-fast twin `src/lib/constantes.ts`.  The process environment is a
    map from variable name to value; a name outside the map is unset, and
    an unset or empty value counts as missing. */
module Env {
  import opened Wrappers

  type Environment = map<string, string>

  const PublishableKey := "NEXT_PUBLIC_CLERK_PUBLISHABLE_KEY"
  const IssuerDomain := "NEXT_PUBLIC_CLERK_JWT_ISSUER_DOMAIN"
  const ConvexUrl := "NEXT_PUBLIC_CONVEX_URL"

  /** The three variables, in the order both files check them. */
  const Required := [PublishableKey, IssuerDomain, ConvexUrl]

  /** `process.env[name]`. */
  function Lookup(env: Environment, name: string): Option<string> {
    if name in env then Some(env[name]) else None
  }

  /** `!value`: unset or empty. */
  predicate Missing(env: Environment, name: string) {
    name !in env || env[name] == ""
  }

  /** `validateEnvVars`: the first missing variable, in the order above,
      is reported as "Missing <name>". */
  function ValidateEnvVars(env: Environment): (r: Result<(), string>)
    ensures r.Success? <==> forall k :: 0 <= k < |Required| ==> !Missing(env, Required[k])
    ensures r.Failure? ==> exists k :: FirstMissing(env, k) && r.error == "Missing " + Required[k]
  {
    if Missing(env, PublishableKey) then
      assert FirstMissing(env, 0);
      Failure("Missing " + PublishableKey)
    else if Missing(env, IssuerDomain) then
      assert FirstMissing(env, 1);
      Failure("Missing " + IssuerDomain)
    else if Missing(env, ConvexUrl) then
      assert FirstMissing(env, 2);
      Failure("Missing " + ConvexUrl)
    else Success(())
  }

  /** `Required[k]` is the first of the three variables that is missing. */
  predicate FirstMissing(env: Environment, k: int) {
    && 0 <= k < |Required|
    && Missing(env, Required[k])
    && forall j :: 0 <= j < k ==> !Missing(env, Required[j])
  }

  /** `requiredEnv(name)`: the value, or "Missing required env var: <name>". */
  function RequiredEnv(env: Environment, name: string): (r: Result<string, string>)
    ensures r.Success? <==> !Missing(env, name)
    ensures r.Success? ==> Lookup(env, name) == Some(r.value) && r.value != ""
    ensures r.Failure? ==> r.error == "Missing required env var: " + name
  {
    if Missing(env, name) then Failure("Missing required env var: " + name)
    else Success(env[name])
  }

  datatype Constants = Constants(clerkPublicKey: string, clerkJwtIssuerDomain: string, convexPublic: string)

  /** Loading `constantes.ts`: its three `requiredEnv` calls in order; the
      first failure aborts the load. */
  function LoadConstants(env: Environment): (r: Result<Constants, string>)
    ensures r.Success? <==> forall k :: 0 <= k < |Required| ==> !Missing(env, Required[k])
    ensures r.Success? ==>
      && Lookup(env, PublishableKey) == Some(r.value.clerkPublicKey)
      && Lookup(env, IssuerDomain) == Some(r.value.clerkJwtIssuerDomain)
      && Lookup(env, ConvexUrl) == Some(r.value.convexPublic)
    ensures r.Failure? ==> exists k :: FirstMissing(env, k) && r.error == "Missing required env var: " + Required[k]
  {
    match RequiredEnv(env, PublishableKey)
    case Failure(e) =>
      assert FirstMissing(env, 0);
      Failure(e)
    case Success(key) =>
      match RequiredEnv(env, IssuerDomain)
      case Failure(e) =>
        assert FirstMissing(env, 1);
        Failure(e)
      case Success(issuer) =>
        match RequiredEnv(env, ConvexUrl)
        case Failure(e) =>
          assert FirstMissing(env, 2);
          Failure(e)
        case Success(url) => Success(Constants(key, issuer, url))
  }

  /** The two files agree: loading the constants fails exactly when
      `validateEnvVars` throws, and both name the same variable. */
  lemma LoadAgreesWithValidate(env: Environment)
    ensures LoadConstants(env).Success? <==> ValidateEnvVars(env).Success?
    ensures ValidateEnvVars(env).Failure? ==>
      exists k :: FirstMissing(env, k)
        && ValidateEnvVars(env).error == "Missing " + Required[k]
        && LoadConstants(env).error == "Missing required env var: " + Required[k]
  {
    if ValidateEnvVars(env).Failure? {
      var k :| FirstMissing(env, k) && ValidateEnvVars(env).error == "Missing " + Required[k];
      var k' :| FirstMissing(env, k') && LoadConstants(env).error == "Missing required env var: " + Required[k'];
      FirstMissingUnique(env, k, k');
    }
  }

  lemma FirstMissingUnique(env: Environment, k: int, k': int)
    requires FirstMissing(env, k) && FirstMissing(env, k')
    ensures k == k'
  {
  }

  /** The constants of `constants.ts` are the raw lookups: unset stays
      undefined and the empty string stays empty. */
  function ReadConstants(env: Environment): (r: (Option<string>, Option<string>, Option<string>))
    ensures r.0.None? <==> PublishableKey !in env
    ensures r.1.None? <==> IssuerDomain !in env
    ensures r.2.None? <==> ConvexUrl !in env
    ensures ValidateEnvVars(env).Success? ==>
      r.0.Some? && r.1.Some? && r.2.Some?
      && LoadConstants(env) == Success(Constants(r.0.value, r.1.value, r.2.value))
  {
    (Lookup(env, PublishableKey), Lookup(env, IssuerDomain), Lookup(env, ConvexUrl))
  }
}
