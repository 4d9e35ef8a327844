/** Requests to the two token endpoints, and what each of them demands before it issues a token. */
module Requests {
  import opened Machine
  import opened Wrappers
  import opened Jwk
  import Jwt
  import Bearer

  /** Basic credentials (None when the header is absent or not Basic) and the form; formError is ParseForm's error. */
  datatype Request = Request(basic: Option<(string, string)>, form: map<string, string>, formError: bool)
  {
    function FormValue(key: string): string {
      if key in form then form[key] else ""
    }
  }

  /** Workload identity federation settings; without them the validator is nil. */
  datatype Wif = Wif(clientID: string, issuer: Jwt.Issuer, lib: Jwt.Library)

  datatype Config = Config(clientID: string, clientSecret: string, mac: Bearer.Mac, apiKey: string, wif: Option<Wif>)

  /** parseOAuthCredentials: None when it reports missing credentials. */
  function ParseOAuthCredentials(r: Request): Option<(string, string)> {
    if r.basic.Some? && r.basic.value.0 != "" then r.basic
    else if r.formError then None
    else
      var id, secret := r.FormValue("client_id"), r.FormValue("client_secret");
      if id != "" && secret != "" then Some((id, secret)) else None
  }

  /** The checks of OAuthTokenHandler in order: the HTTP status of the refusal, or None. */
  function RefuseOAuth(c: Config, r: Request): Option<nat> {
    match ParseOAuthCredentials(r)
    case None => Some(400)
    case Some((id, secret)) =>
      if r.FormValue("grant_type") != "client_credentials" then Some(400)
      else if id != c.clientID || secret != c.clientSecret then Some(401)
      else None
  }

  function ExchangeClientID(r: Request): string {
    var id := if r.basic.Some? then r.basic.value.0 else "";
    if id == "" then r.FormValue("client_id") else id
  }

  /** The checks of TokenExchangeHandler that come before the validator is asked. */
  function RefuseExchange(c: Config, r: Request): Option<nat> {
    if c.wif.None? then Some(501)
    else if r.FormValue("grant_type") != "client_credentials" then Some(400)
    else if ExchangeClientID(r) == "" then Some(400)
    else if ExchangeClientID(r) != c.wif.value.clientID then Some(401)
    else if r.FormValue("jwt") == "" then Some(400)
    else None
  }

  /** The form has this value, which is not empty, in this field. */
  predicate Gives(r: Request, field: string, value: string) {
    field in r.form && r.form[field] == value && value != ""
  }

  /** The credentials that come with a request: the Basic pair if its user is not empty, else the pair in a body that
      parses, with neither half empty. */
  predicate Carries(r: Request, id: string, secret: string) {
    if r.basic.Some? && r.basic.value.0 != "" then r.basic.value == (id, secret)
    else !r.formError && Gives(r, "client_id", id) && Gives(r, "client_secret", secret)
  }

  /** The statuses of the credentials endpoint: 400 without credentials or with another grant type, 401 for another
      pair. */
  lemma RefuseOAuthStatus(c: Config, r: Request)
    ensures RefuseOAuth(c, r) ==
            if !Gives(r, "grant_type", "client_credentials") || !(exists id, secret :: Carries(r, id, secret)) then
              Some(400)
            else if Carries(r, c.clientID, c.clientSecret) then None
            else Some(401)
  {
    var creds := ParseOAuthCredentials(r);
    if creds.Some? {
      assert Carries(r, creds.value.0, creds.value.1);
    }
  }

  /** The statuses of the exchange endpoint: 501 without federation, 401 for another client, 400 for what is missing or
      another grant type, in that the client is looked at before the token. */
  lemma RefuseExchangeStatus(c: Config, r: Request)
    ensures var basic := if r.basic.Some? then r.basic.value.0 else "";
            var client := if basic != "" then basic else if "client_id" in r.form then r.form["client_id"] else "";
            RefuseExchange(c, r) ==
            match c.wif
            case None => Some(501)
            case Some(wif) =>
              if !Gives(r, "grant_type", "client_credentials") || client == "" then Some(400)
              else if client != wif.clientID then Some(401)
              else if !(exists raw :: Gives(r, "jwt", raw)) then Some(400)
              else None
  {
    assert r.FormValue("jwt") != "" ==> Gives(r, "jwt", r.FormValue("jwt"));
  }

  /** Why a token was issued: the request and, for an exchange, the signing key used and the clock at the claim
      checks. */
  datatype Grant =
    | ByCredentials(request: Request, nonce: seq<Byte>)
    | ByJwt(request: Request, key: PublicKey, at: int, nonce: seq<Byte>)

  /** The request behind the grant deserved the token. */
  predicate Deserved(c: Config, g: Grant) {
    match g
    case ByCredentials(r, _) => RefuseOAuth(c, r).None?
    case ByJwt(r, key, at, _) =>
      && RefuseExchange(c, r).None?
      && (var wif := c.wif.value;
          match Jwt.Open(wif.lib, r.FormValue("jwt"))
          case Failure(_) => false
          case Success(o) => Jwt.Close(wif.lib, wif.issuer, o, key, at).Success?)
  }

  /** A request earns a token by credentials exactly when it carries the configured pair: in Basic form, or in the body
      if the Basic user is missing or empty, the body then parsing and neither half being empty. */
  lemma DeservedByCredentials(c: Config, r: Request, nonce: seq<Byte>)
    ensures Deserved(c, ByCredentials(r, nonce)) <==>
            && Gives(r, "grant_type", "client_credentials")
            && ((r.basic == Some((c.clientID, c.clientSecret)) && c.clientID != "")
                || ((r.basic.None? || r.basic.value.0 == "")
                    && !r.formError
                    && Gives(r, "client_id", c.clientID) && Gives(r, "client_secret", c.clientSecret)))
  {
  }

  function Always(key: PublicKey): string -> Option<PublicKey> {
    _ => Some(key)
  }

  /** A request earns a token by a JWT exactly when federation is on and the request carries the configured client,
      which is not empty, in Basic form or, the Basic user missing or empty, in the form, together with a JWT that is
      acceptable under the key, by the rule on the text. */
  lemma DeservedByJwt(c: Config, r: Request, key: PublicKey, at: int, nonce: seq<Byte>)
    ensures Deserved(c, ByJwt(r, key, at, nonce)) <==>
            && c.wif.Some? && Gives(r, "grant_type", "client_credentials")
            && ((r.basic.Some? && r.basic.value.0 == c.wif.value.clientID != "")
                || ((r.basic.None? || r.basic.value.0 == "") && Gives(r, "client_id", c.wif.value.clientID)))
            && (exists raw, claims, p ::
                  && Gives(r, "jwt", raw)
                  && Jwt.Acceptable(c.wif.value.lib, c.wif.value.issuer, raw, Always(key), at, claims, p))
  {
    hide RefuseExchange;
    hide Jwt.Acceptable;
    hide Jwt.Open;
    hide Jwt.Close;
    ExchangeAdmits(c, r);
    if c.wif.Some? {
      JwtAcceptable(c.wif.value, r.FormValue("jwt"), key, at);
    }
  }

  lemma ExchangeAdmits(c: Config, r: Request)
    ensures RefuseExchange(c, r).None? <==>
            && c.wif.Some? && Gives(r, "grant_type", "client_credentials")
            && ((r.basic.Some? && r.basic.value.0 == c.wif.value.clientID != "")
                || ((r.basic.None? || r.basic.value.0 == "") && Gives(r, "client_id", c.wif.value.clientID)))
            && r.FormValue("jwt") != ""
  {
  }

  lemma JwtAcceptable(wif: Wif, raw: string, key: PublicKey, at: int)
    ensures (match Jwt.Open(wif.lib, raw)
             case Failure(_) => false
             case Success(o) => Jwt.Close(wif.lib, wif.issuer, o, key, at).Success?)
            <==> exists claims, p :: Jwt.Acceptable(wif.lib, wif.issuer, raw, Always(key), at, claims, p)
  {
    hide Jwt.Acceptable;
    hide Jwt.Open;
    hide Jwt.Close;
    var verdict := Jwt.Validate(wif.lib, wif.issuer, raw, Always(key), at);
    if verdict.Success? {
      Jwt.ValidateExact(wif.lib, wif.issuer, raw, Always(key), at, verdict.value);
    }
    forall claims, p | Jwt.Acceptable(wif.lib, wif.issuer, raw, Always(key), at, claims, p) ensures verdict.Success? {
      Jwt.ValidateExact(wif.lib, wif.issuer, raw, Always(key), at, claims);
    }
  }
}
