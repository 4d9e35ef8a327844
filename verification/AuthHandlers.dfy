/** The token endpoints and the bearer middleware as the sequential code runs them, one request at a time. */
module AuthHandlers {
  import opened Machine
  import opened Wrappers
  import opened Requests
  import opened Jwk
  import Bearer
  import Jwt
  import Service
  import T = TokenRuns

  class TokenStore {
    /** From token to expiry. */
    var tokens: map<string, int>

    constructor ()
      ensures tokens == map[]
    {
      tokens := map[];
    }

    method Store(token: string, expiry: int)
      modifies this
      ensures tokens == old(tokens)[token := expiry]
    {
      tokens := tokens[token := expiry];
    }

    method Lookup(token: string) returns (entry: Option<int>)
      ensures entry == if token in tokens then Some(tokens[token]) else None
    {
      entry := if token in tokens then Some(tokens[token]) else None;
    }

    /** Deletes, in whatever order the iteration takes, exactly the entries whose expiry lies before now. */
    method Purge(now: int)
      modifies this
      ensures tokens == T.Purged(old(tokens), now)
    {
      var todo := tokens.Keys;
      while todo != {}
        invariant todo <= tokens.Keys <= old(tokens).Keys
        invariant forall tok :: tok in tokens ==> tokens[tok] == old(tokens)[tok]
        invariant forall tok :: tok in old(tokens) && tok !in todo ==>
                    (tok in tokens <==> !T.Expired(now, old(tokens)[tok]))
        decreases todo
      {
        var tok :| tok in todo;
        if now > tokens[tok] {
          tokens := tokens - {tok};
        }
        todo := todo - {tok};
      }
    }
  }

  datatype Response = Denied(status: nat) | TokenIssued(accessToken: string, tokenType: string, expiresIn: int)

  /** The tail both endpoints share: mint, stamp an hour ahead, store, answer. */
  method Issue(c: Config, store: TokenStore, nonce: Option<seq<Byte>>, now: int) returns (resp: Response)
    modifies store
    ensures nonce.None? ==> resp == Denied(500) && store.tokens == old(store.tokens)
    ensures nonce.Some? ==> resp.TokenIssued? && resp.accessToken == Bearer.GenerateToken(c.mac, nonce.value)
                            && resp.tokenType == "Bearer" && resp.expiresIn * SECOND == HOUR
                            && store.tokens == old(store.tokens)[resp.accessToken := now + HOUR]
  {
    match nonce {
      case None => resp := Denied(500);
      case Some(n) =>
        var tok := Bearer.GenerateToken(c.mac, n);
        store.Store(tok, now + T.TTL);
        resp := TokenIssued(tok, "Bearer", T.TTL / SECOND);
    }
  }

  /** POST /oauth/token. A refused request leaves the store as it was. */
  method OAuthToken(c: Config, store: TokenStore, r: Request, nonce: Option<seq<Byte>>, now: int)
    returns (resp: Response)
    modifies store
    ensures resp.Denied? ==> store.tokens == old(store.tokens)
    ensures resp.TokenIssued? <==> nonce.Some? && Deserved(c, ByCredentials(r, nonce.value))
    ensures resp.TokenIssued? ==> store.tokens == old(store.tokens)[resp.accessToken := now + HOUR]
                                  && resp.accessToken == Bearer.GenerateToken(c.mac, nonce.value)
    ensures resp.Denied? ==> resp.status == if RefuseOAuth(c, r).Some? then RefuseOAuth(c, r).value else 500
  {
    var creds := ParseOAuthCredentials(r);
    if creds.None? {
      return Denied(400);
    }
    var grantType := r.FormValue("grant_type");
    if grantType == "" {
      return Denied(400);
    }
    if grantType != "client_credentials" {
      return Denied(400);
    }
    if creds.value.0 != c.clientID || creds.value.1 != c.clientSecret {
      return Denied(401);
    }
    resp := Issue(c, store, nonce, now);
  }

  /** strings.TrimRight(url, "/"). */
  function TrimSlashes(url: string): (t: string)
    ensures t <= url && (t == "" || t[|t| - 1] != '/')
    ensures forall i :: |t| <= i < |url| ==> url[i] == '/'
  {
    if url != "" && url[|url| - 1] == '/' then TrimSlashes(url[..|url| - 1]) else url
  }

  /** What the outside answers while one token is validated: the document fetched (None for any failure on the way)
      and the clock at the cache check, at the install and at the claim checks. */
  datatype Outside = Outside(doc: Option<Document>, checkedAt: int, installedAt: int, closedAt: int)

  class OIDCValidator {
    const issuer: Jwt.Issuer
    const lib: Jwt.Library
    var jwks: Option<Service.Snapshot>

    constructor (issuerURL: string, audience: string, lib: Jwt.Library)
      ensures jwks.None? && issuer == Jwt.Issuer(TrimSlashes(issuerURL), audience) && this.lib == lib
    {
      issuer := Jwt.Issuer(TrimSlashes(issuerURL), audience);
      this.lib := lib;
      jwks := None;
    }

    method RefreshJWKS(o: Outside) returns (ok: bool)
      modifies this
      ensures ok == o.doc.Some?
      ensures jwks == if ok then Some(Service.Snapshot(Fold(o.doc.value), o.installedAt)) else old(jwks)
    {
      if o.doc.None? {
        return false;
      }
      var keys := FoldKeys(o.doc.value);
      jwks := Some(Service.Snapshot(keys, o.installedAt));
      ok := true;
    }

    /** The cache serves the kid at this time. */
    predicate Serves(kid: string, now: int)
      reads this
    {
      jwks.Some? && now - jwks.value.fetchedAt < HOUR && kid in jwks.value.keys
    }

    /** A kid the fresh cache lacks is asked of the issuer at once; the answer then is the fetched document's. */
    method GetKey(kid: string, o: Outside) returns (key: Option<PublicKey>)
      modifies this
      ensures old(Serves(kid, o.checkedAt)) ==> key == Some(old(jwks).value.keys[kid]) && jwks == old(jwks)
      ensures !old(Serves(kid, o.checkedAt)) && o.doc.None? ==> key.None? && jwks == old(jwks)
      ensures !old(Serves(kid, o.checkedAt)) && o.doc.Some? ==>
                key == Find(Fold(o.doc.value), kid) && jwks == Some(Service.Snapshot(Fold(o.doc.value), o.installedAt))
    {
      if jwks.Some? && o.checkedAt - jwks.value.fetchedAt < Service.JWKS_TTL {
        if kid in jwks.value.keys {
          return Some(jwks.value.keys[kid]);
        }
      }
      var ok := RefreshJWKS(o);
      if !ok {
        return None;
      }
      key := Find(jwks.value.keys, kid);
    }

    /** What getKey answers for the kid of a token, and None when the token does not open: nobody is asked then. */
    ghost function Answer(raw: string, o: Outside): Option<PublicKey>
      reads this
    {
      match Jwt.Open(lib, raw)
      case Failure(_) => None
      case Success(token) =>
        if Serves(token.header.kid, o.checkedAt) then Some(jwks.value.keys[token.header.kid])
        else if o.doc.None? then None
        else Find(Fold(o.doc.value), token.header.kid)
    }

    /** What is cached once the token has been looked at. */
    ghost function Cached(raw: string, o: Outside): Option<Service.Snapshot>
      reads this
    {
      match Jwt.Open(lib, raw)
      case Failure(_) => jwks
      case Success(token) =>
        if Serves(token.header.kid, o.checkedAt) || o.doc.None? then jwks
        else Some(Service.Snapshot(Fold(o.doc.value), o.installedAt))
    }

    /** The verdict of Jwt.Validate for the key getKey answers. */
    method Validate(raw: string, o: Outside) returns (r: Result<Jwt.Claims, Jwt.Reason>)
      modifies this
      ensures var answer := old(Answer(raw, o)); r == Jwt.Validate(lib, issuer, raw, _ => answer, o.closedAt)
      ensures jwks == old(Cached(raw, o))
    {
      match Jwt.Open(lib, raw) {
        case Failure(e) => r := Failure(e);
        case Success(token) =>
          var key := GetKey(token.header.kid, o);
          if key.None? {
            r := Failure(Jwt.NoSigningKey);
          } else {
            r := Jwt.Close(lib, issuer, token, key.value, o.closedAt);
          }
      }
    }
  }

  /** POST /oauth/token-exchange. The validator is null when federation is off. A refused request leaves the store as it
      was, and the key a token is granted under is the one the cache or the document just fetched has for it. */
  method TokenExchange(c: Config, store: TokenStore, validator: OIDCValidator?, r: Request, o: Outside,
                       nonce: Option<seq<Byte>>, now: int)
    returns (resp: Response)
    requires validator == null <==> c.wif.None?
    requires validator != null ==> validator.issuer == c.wif.value.issuer && validator.lib == c.wif.value.lib
    modifies store, validator
    ensures RefuseExchange(c, r).Some? ==> resp == Denied(RefuseExchange(c, r).value)
    ensures resp.Denied? ==> store.tokens == old(store.tokens)
    ensures resp.TokenIssued? ==> nonce.Some? && store.tokens == old(store.tokens)[resp.accessToken := now + HOUR]
                                  && resp.accessToken == Bearer.GenerateToken(c.mac, nonce.value)
    ensures resp.TokenIssued? <==>
            && RefuseExchange(c, r).None? && nonce.Some?
            && (var key := old(validator.Answer(r.FormValue("jwt"), o));
                key.Some? && Deserved(c, ByJwt(r, key.value, o.closedAt, nonce.value)))
    ensures resp.Denied? && RefuseExchange(c, r).None? ==>
            var key := old(validator.Answer(r.FormValue("jwt"), o));
            resp.status == if key.Some? && Deserved(c, ByJwt(r, key.value, o.closedAt, [])) then 500 else 401
    ensures validator != null ==>
            validator.jwks == if RefuseExchange(c, r).Some? then old(validator.jwks)
                              else old(validator.Cached(r.FormValue("jwt"), o))
  {
    if validator == null {
      return Denied(501);
    }
    if r.FormValue("grant_type") != "client_credentials" {
      return Denied(400);
    }
    var clientID := if r.basic.Some? then r.basic.value.0 else "";
    if clientID == "" {
      clientID := r.FormValue("client_id");
    }
    if clientID == "" {
      return Denied(400);
    }
    if clientID != c.wif.value.clientID {
      return Denied(401);
    }
    var jwt := r.FormValue("jwt");
    if jwt == "" {
      return Denied(400);
    }
    var claims := validator.Validate(jwt, o);
    if claims.Failure? {
      return Denied(401);
    }
    resp := Issue(c, store, nonce, now);
  }

  /** The middleware: may the protected handler run? */
  method Authenticate(c: Config, store: TokenStore, creds: Bearer.Credentials, now: int) returns (ok: bool)
    ensures var tok := Bearer.Presented(creds);
            ok <==> tok != "" && (tok == c.apiKey || (tok in store.tokens && now <= store.tokens[tok]))
  {
    var tok := Bearer.ExtractBearerToken(creds.auth);
    if tok == "" {
      if creds.basicUser.Some? {
        tok := creds.basicUser.value;
      }
    }
    if tok == "" {
      return false;
    }
    if tok == c.apiKey {
      return true;
    }
    var entry := store.Lookup(tok);
    ok := entry.Some? && !(now > entry.value);
  }

  /** A token is good for an hour after it was handed out, ends included, purges or not, and for no longer. */
  method IssueThenPresent(c: Config, store: TokenStore, r: Request, nonce: seq<Byte>, now: int, purgeAt: int,
                           later: int)
    returns (ok: bool)
    requires Deserved(c, ByCredentials(r, nonce)) && now <= purgeAt <= later
    requires Bearer.GenerateToken(c.mac, nonce) != c.apiKey
    modifies store
    ensures ok <==> later <= now + HOUR
  {
    hide Bearer.ExtractBearerToken;
    hide Bearer.GenerateToken;
    var resp := OAuthToken(c, store, r, Some(nonce), now);
    store.Purge(purgeAt);
    Bearer.ExtractIssued(c.mac, nonce);
    Bearer.TokenChars(c.mac, nonce);
    ok := Authenticate(c, store, Bearer.Credentials("Bearer " + resp.accessToken, None), later);
  }
}
